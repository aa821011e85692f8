// Searching every configured group base and collecting the values of one
// attribute from the entries found (getListOfNames in GetGroups.java).
module GroupSearch {
  import opened Results

  datatype Scope = ObjectScope | OneLevelScope | SubtreeScope

  /** The search options the source sets: a scope and the attributes the
      directory is asked to return. */
  datatype SearchControls = SearchControls(scope: Scope, returningAttributes: seq<string>)

  datatype SearchRequest = SearchRequest(base: string, filter: string, controls: SearchControls)

  /** One search result: its attribute bag, which may be null; each attribute
      maps to its values in the order the directory returned them. */
  datatype Entry = Entry(attributes: Option<map<string, seq<string>>>)

  /** The directory as this code sees it. `escapeBase` is the helper that
      escapes a base DN for a search; `search` runs one search to the end and
      yields the entries in the order returned, or the message of the
      directory error it raised. */
  datatype Directory = Directory(
    escapeBase: string -> string,
    search: SearchRequest -> Result<seq<Entry>, string>)

  function RequestFor(base: string, filter: string, controls: SearchControls, dir: Directory): SearchRequest
  {
    SearchRequest(dir.escapeBase(base), filter, controls)
  }

  /** What one entry contributes: nothing when it has no attributes or lacks
      `property`, otherwise every value of `property`. */
  function ValuesOf(entry: Entry, property: string): seq<string>
  {
    match entry.attributes
    case None => []
    case Some(attrs) => if property in attrs then attrs[property] else []
  }

  /** The names collected from one search answer, entry after entry. */
  function NamesFromEntries(entries: seq<Entry>, property: string): seq<string>
    decreases |entries|
  {
    if entries == [] then []
    else NamesFromEntries(entries[..|entries| - 1], property) + ValuesOf(entries[|entries| - 1], property)
  }

  /** The names collected over the bases in their configured order. The first
      base whose search fails aborts the whole collection with that error. */
  function ListOfNames(bases: seq<string>, filter: string, controls: SearchControls,
                       property: string, dir: Directory): Result<seq<string>, string>
    decreases |bases|
  {
    if bases == [] then Ok([])
    else
      match ListOfNames(bases[..|bases| - 1], filter, controls, property, dir)
      case Err(e) => Err(e)
      case Ok(names) =>
        match dir.search(RequestFor(bases[|bases| - 1], filter, controls, dir))
        case Err(e) => Err(e)
        case Ok(entries) => Ok(names + NamesFromEntries(entries, property))
  }

  /** The searches issued while collecting: one per base, in order, up to and
      including the first one that fails. */
  function Requests(bases: seq<string>, filter: string, controls: SearchControls,
                    property: string, dir: Directory): seq<SearchRequest>
    decreases |bases|
  {
    if bases == [] then []
    else
      var init := bases[..|bases| - 1];
      if ListOfNames(init, filter, controls, property, dir).Err? then Requests(init, filter, controls, property, dir)
      else Requests(init, filter, controls, property, dir) + [RequestFor(bases[|bases| - 1], filter, controls, dir)]
  }

  /** The source's loops: over the bases, over each answer's entries, and over
      each matching attribute's values, appending to one list. `issued` records
      the searches the loop sends, in order. */
  method GetListOfNames(searchBases: seq<string>, searchFilter: string, searchControls: SearchControls,
                        property: string, dir: Directory)
    returns (r: Result<seq<string>, string>, ghost issued: seq<SearchRequest>)
    ensures r == ListOfNames(searchBases, searchFilter, searchControls, property, dir)
    ensures issued == Requests(searchBases, searchFilter, searchControls, property, dir)
  {
    var names: seq<string> := [];
    issued := [];
    var k := 0;
    while k < |searchBases|
      invariant 0 <= k <= |searchBases|
      invariant ListOfNames(searchBases[..k], searchFilter, searchControls, property, dir) == Ok(names)
      invariant issued == Requests(searchBases[..k], searchFilter, searchControls, property, dir)
    {
      var request := SearchRequest(dir.escapeBase(searchBases[k]), searchFilter, searchControls);
      var answer := dir.search(request);
      issued := issued + [request];
      if answer.Err? {
        SearchStep(searchBases, k, searchFilter, searchControls, property, dir, names);
        FailureAborts(searchBases, k + 1, searchFilter, searchControls, property, dir);
        RequestsAfterFailure(searchBases, k + 1, searchFilter, searchControls, property, dir);
        return Err(answer.error), issued;
      }
      var entries := answer.value;
      ghost var before := names;
      var j := 0;
      while j < |entries|
        invariant 0 <= j <= |entries|
        invariant names == before + NamesFromEntries(entries[..j], property)
      {
        var searchResult := entries[j];
        j := j + 1;
        EntryStep(entries, j, property);
        if searchResult.attributes.None? {
          continue;
        }
        var attrs := searchResult.attributes.value;
        if property !in attrs {
          continue;
        }
        var values := attrs[property];
        var v := 0;
        while v < |values|
          invariant 0 <= v <= |values|
          invariant names == before + NamesFromEntries(entries[..j - 1], property) + values[..v]
        {
          assert values[..v + 1] == values[..v] + [values[v]];
          names := names + [values[v]];
          v := v + 1;
        }
        assert values[..v] == values;
      }
      assert entries[..j] == entries;
      SearchStep(searchBases, k, searchFilter, searchControls, property, dir, before);
      k := k + 1;
    }
    assert searchBases[..k] == searchBases;
    return Ok(names), issued;
  }

  lemma EntryStep(entries: seq<Entry>, j: nat, property: string)
    requires 0 < j <= |entries|
    ensures NamesFromEntries(entries[..j], property) ==
            NamesFromEntries(entries[..j - 1], property) + ValuesOf(entries[j - 1], property)
  {
    assert entries[..j][..j - 1] == entries[..j - 1];
  }

  lemma SearchStep(bases: seq<string>, k: nat, filter: string, controls: SearchControls,
                   property: string, dir: Directory, names: seq<string>)
    requires k < |bases|
    requires ListOfNames(bases[..k], filter, controls, property, dir) == Ok(names)
    ensures var answer := dir.search(RequestFor(bases[k], filter, controls, dir));
            ListOfNames(bases[..k + 1], filter, controls, property, dir) ==
            if answer.Err? then Err(answer.error) else Ok(names + NamesFromEntries(answer.value, property))
    ensures Requests(bases[..k + 1], filter, controls, property, dir) ==
            Requests(bases[..k], filter, controls, property, dir) + [RequestFor(bases[k], filter, controls, dir)]
  {
    assert bases[..k + 1][..k] == bases[..k];
  }

  /** Names from consecutive answers are the names of each, concatenated. */
  lemma {:induction false} NamesFromEntriesAppend(a: seq<Entry>, b: seq<Entry>, property: string)
    ensures NamesFromEntries(a + b, property) == NamesFromEntries(a, property) + NamesFromEntries(b, property)
    decreases |b|
  {
    if b == [] {
      assert a + b == a;
    } else {
      var init := b[..|b| - 1];
      assert (a + b)[..|a + b| - 1] == a + init;
      NamesFromEntriesAppend(a, init, property);
    }
  }

  /** An entry without attributes, or without `property`, changes nothing. */
  lemma SkippedEntryContributesNothing(a: seq<Entry>, e: Entry, b: seq<Entry>, property: string)
    requires e.attributes.None? || property !in e.attributes.value
    ensures NamesFromEntries(a + [e] + b, property) == NamesFromEntries(a + b, property)
  {
    NamesFromEntriesAppend(a + [e], b, property);
    NamesFromEntriesAppend(a, [e], property);
    NamesFromEntriesAppend(a, b, property);
    assert NamesFromEntries([e], property) == [] by {
      assert [e][..0] == [];
    }
  }

  /** Concatenation of a sequence of lists, front to back. */
  function Flatten(lists: seq<seq<string>>): seq<string>
    decreases |lists|
  {
    if lists == [] then [] else lists[0] + Flatten(lists[1..])
  }

  lemma {:induction false} FlattenSnoc(lists: seq<seq<string>>, last: seq<string>)
    ensures Flatten(lists + [last]) == Flatten(lists) + last
    decreases |lists|
  {
    if lists == [] {
      assert [last][1..] == [];
    } else {
      assert (lists + [last])[1..] == lists[1..] + [last];
      FlattenSnoc(lists[1..], last);
    }
  }

  function ValueLists(entries: seq<Entry>, property: string): (r: seq<seq<string>>)
    ensures |r| == |entries|
    ensures forall i :: 0 <= i < |entries| ==> r[i] == ValuesOf(entries[i], property)
  {
    seq(|entries|, i requires 0 <= i < |entries| => ValuesOf(entries[i], property))
  }

  /** The names of one answer are exactly the values of every entry, in entry
      order and then value order: nothing is dropped, sorted or merged. */
  lemma {:induction false} NamesFromEntriesIsFlatten(entries: seq<Entry>, property: string)
    ensures NamesFromEntries(entries, property) == Flatten(ValueLists(entries, property))
    decreases |entries|
  {
    if entries != [] {
      var init := entries[..|entries| - 1];
      NamesFromEntriesIsFlatten(init, property);
      assert ValueLists(entries, property) == ValueLists(init, property) + [ValuesOf(entries[|entries| - 1], property)];
      FlattenSnoc(ValueLists(init, property), ValuesOf(entries[|entries| - 1], property));
    }
  }

  /** A name is collected exactly when some entry of the answer holds it as a
      value of `property`. */
  lemma {:induction false} NameFoundIff(entries: seq<Entry>, property: string, name: string)
    ensures name in NamesFromEntries(entries, property) <==>
            exists i :: 0 <= i < |entries| && name in ValuesOf(entries[i], property)
    decreases |entries|
  {
    if entries != [] {
      var n := |entries| - 1;
      var init := entries[..n];
      NameFoundIff(init, property, name);
      if exists i :: 0 <= i < |entries| && name in ValuesOf(entries[i], property) {
        var i :| 0 <= i < |entries| && name in ValuesOf(entries[i], property);
        if i < n {
          assert init[i] == entries[i];
        }
      }
      if exists i :: 0 <= i < n && name in ValuesOf(init[i], property) {
        var i :| 0 <= i < n && name in ValuesOf(init[i], property);
        assert init[i] == entries[i];
      }
    }
  }

  /** Searching bases `a` then bases `b` collects the names of `a` followed by
      those of `b`; a failure in `a` stops before `b` is searched. */
  lemma {:induction false} ListOfNamesAppend(a: seq<string>, b: seq<string>, filter: string,
                                             controls: SearchControls, property: string, dir: Directory)
    ensures ListOfNames(a + b, filter, controls, property, dir) ==
            match ListOfNames(a, filter, controls, property, dir)
            case Err(e) => Err(e)
            case Ok(x) =>
              match ListOfNames(b, filter, controls, property, dir)
              case Err(e) => Err(e)
              case Ok(y) => Ok(x + y)
    decreases |b|
  {
    if b == [] {
      assert a + b == a;
      if ListOfNames(a, filter, controls, property, dir).Ok? {
        var x := ListOfNames(a, filter, controls, property, dir).value;
        assert x + [] == x;
      }
    } else {
      var init := b[..|b| - 1];
      assert (a + b)[..|a + b| - 1] == a + init;
      assert (a + b)[|a + b| - 1] == b[|b| - 1];
      ListOfNamesAppend(a, init, filter, controls, property, dir);
      match ListOfNames(a, filter, controls, property, dir)
      case Err(_) =>
      case Ok(x) =>
        match ListOfNames(init, filter, controls, property, dir)
        case Err(_) =>
        case Ok(y) =>
          match dir.search(RequestFor(b[|b| - 1], filter, controls, dir))
          case Err(_) =>
          case Ok(entries) =>
            assert x + y + NamesFromEntries(entries, property) == x + (y + NamesFromEntries(entries, property));
    }
  }

  /** A failure among the first `m` bases is the result of the whole search. */
  lemma FailureAborts(bases: seq<string>, m: nat, filter: string, controls: SearchControls,
                      property: string, dir: Directory)
    requires m <= |bases|
    requires ListOfNames(bases[..m], filter, controls, property, dir).Err?
    ensures ListOfNames(bases, filter, controls, property, dir) == ListOfNames(bases[..m], filter, controls, property, dir)
  {
    ListOfNamesAppend(bases[..m], bases[m..], filter, controls, property, dir);
    assert bases[..m] + bases[m..] == bases;
  }

  /** Once a search has failed, no further base is searched. */
  lemma {:induction false} RequestsAfterFailure(bases: seq<string>, m: nat, filter: string, controls: SearchControls,
                                                property: string, dir: Directory)
    requires m <= |bases|
    requires ListOfNames(bases[..m], filter, controls, property, dir).Err?
    ensures Requests(bases, filter, controls, property, dir) == Requests(bases[..m], filter, controls, property, dir)
    decreases |bases|
  {
    if |bases| == m {
      assert bases[..m] == bases;
    } else {
      var init := bases[..|bases| - 1];
      assert init[..m] == bases[..m];
      RequestsAfterFailure(init, m, filter, controls, property, dir);
      FailureAborts(init, m, filter, controls, property, dir);
    }
  }

  /** The searches go to the bases in configured order, each with the given
      filter and controls; all bases are searched when the result is a list,
      and on a failure the last search issued is the one that failed. */
  lemma {:induction false} RequestsFollowBases(bases: seq<string>, filter: string, controls: SearchControls,
                                               property: string, dir: Directory)
    ensures var rs := Requests(bases, filter, controls, property, dir);
            |rs| <= |bases| &&
            (forall k :: 0 <= k < |rs| ==> rs[k] == RequestFor(bases[k], filter, controls, dir)) &&
            (ListOfNames(bases, filter, controls, property, dir).Ok? ==> |rs| == |bases|) &&
            (ListOfNames(bases, filter, controls, property, dir).Err? ==>
               |rs| > 0 && dir.search(rs[|rs| - 1]).Err? &&
               ListOfNames(bases, filter, controls, property, dir).error == dir.search(rs[|rs| - 1]).error)
    decreases |bases|
  {
    if bases != [] {
      var init := bases[..|bases| - 1];
      RequestsFollowBases(init, filter, controls, property, dir);
      var rs := Requests(bases, filter, controls, property, dir);
      forall k | 0 <= k < |rs| ensures rs[k] == RequestFor(bases[k], filter, controls, dir) {
        if k < |init| {
          assert init[k] == bases[k];
        }
      }
    }
  }

  /** The collected names depend on the directory only through the searches
      actually issued: a directory that answers those alike gives the same
      result and is sent the same searches. */
  lemma {:induction false} ListOfNamesDependsOnlyOnRequests(bases: seq<string>, filter: string, controls: SearchControls,
                                                            property: string, dir: Directory,
                                                            search2: SearchRequest -> Result<seq<Entry>, string>)
    requires forall r :: r in Requests(bases, filter, controls, property, dir) ==> dir.search(r) == search2(r)
    ensures ListOfNames(bases, filter, controls, property, dir) ==
            ListOfNames(bases, filter, controls, property, dir.(search := search2))
    ensures Requests(bases, filter, controls, property, dir) ==
            Requests(bases, filter, controls, property, dir.(search := search2))
    decreases |bases|
  {
    if bases != [] {
      var init := bases[..|bases| - 1];
      ListOfNamesDependsOnlyOnRequests(init, filter, controls, property, dir, search2);
    }
  }
}
