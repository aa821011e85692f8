// Distinguished names as JNDI's LdapName exposes them, and their re-assembly
// into a filter value with every component escaped (escapeLdapNameForFilter in
// GetGroups.java).
module LdapNames {
  import opened Results
  import opened FilterEscape

  /** One relative distinguished name: `text` is its string form as
      `LdapName.get(i)` returns it (`cn=alice`), `value` its attribute value
      as `Rdn.getValue()` returns it (`alice`). */
  datatype Rdn = Rdn(text: string, value: string)

  /** A name in JNDI order: index 0 is the root-most component, the last index
      the most specific one. */
  type LdapName = seq<Rdn>

  /** The escaped string form of a name: components from the last index down
      to index 0, each escaped on its own, separated by commas. The first
      escaping failure met in that order is the result. */
  function EscapedDn(ldn: LdapName): Result<string, Unchecked>
    decreases |ldn|
  {
    if |ldn| == 0 then Ok("")
    else
      match Escape(ldn[|ldn| - 1].text)
      case Err(e) => Err(e)
      case Ok(head) =>
        if |ldn| == 1 then Ok(head)
        else Prepend(head + ",", EscapedDn(ldn[..|ldn| - 1]))
  }

  /** The source's descending loop over the component indices. A null name
      gives null. */
  method EscapeLdapNameForFilter(ldn: Option<LdapName>) returns (r: Result<Option<string>, Unchecked>)
    ensures ldn.None? ==> r == Ok(None)
    ensures ldn.Some? ==> match EscapedDn(ldn.value)
                          case Ok(s) => r == Ok(Some(s))
                          case Err(e) => r == Err(e)
  {
    if ldn.None? {
      return Ok(None);
    }
    var rdns := ldn.value;
    var escapedDN := "";
    var i := |rdns| - 1;
    match EscapedDn(rdns) {
      case Ok(t) => assert "" + t == t;
      case Err(_) =>
    }
    assert rdns[..i + 1] == rdns;
    while i > -1
      invariant -1 <= i < |rdns|
      invariant EscapedDn(rdns) == Prepend(escapedDN, EscapedDn(rdns[..i + 1]))
    {
      var part := EscapeSpecialCharactersForFilter(rdns[i].text);
      if part.Err? {
        return Err(part.error);
      }
      assert rdns[..i + 1][..i] == rdns[..i];
      if i != 0 {
        PrependPrepend(escapedDN, part.value + ",", EscapedDn(rdns[..i]));
        assert escapedDN + (part.value + ",") == escapedDN + part.value + ",";
        escapedDN := escapedDN + part.value;
        escapedDN := escapedDN + ",";
      } else {
        assert part.value + "" == part.value;
        PrependPrepend(escapedDN, part.value, EscapedDn(rdns[..i]));
        escapedDN := escapedDN + part.value;
      }
      i := i - 1;
    }
    assert escapedDN + "" == escapedDN;
    return Ok(Some(escapedDN));
  }

  /** The components in the usual left-to-right order of a DN string, most
      specific first. */
  function Reversed(ldn: LdapName): (r: LdapName)
    ensures |r| == |ldn|
    decreases |ldn|
  {
    if ldn == [] then [] else [ldn[|ldn| - 1]] + Reversed(ldn[..|ldn| - 1])
  }

  lemma {:induction false} ReversedAt(ldn: LdapName, k: nat)
    requires k < |ldn|
    ensures Reversed(ldn)[k] == ldn[|ldn| - 1 - k]
    decreases |ldn|
  {
    if k > 0 {
      ReversedAt(ldn[..|ldn| - 1], k - 1);
    }
  }

  /** Every component escaped, front to back; the first failure wins. */
  function EscapeAll(rdns: seq<Rdn>): (r: Result<seq<string>, Unchecked>)
    ensures r.Ok? ==> |r.value| == |rdns|
    decreases |rdns|
  {
    if rdns == [] then Ok([])
    else
      match Escape(rdns[0].text)
      case Err(e) => Err(e)
      case Ok(head) =>
        match EscapeAll(rdns[1..])
        case Err(e) => Err(e)
        case Ok(tail) => Ok([head] + tail)
  }

  /** Strings joined with a comma between each two and none at either end. */
  function Join(parts: seq<string>): string
    decreases |parts|
  {
    if |parts| == 0 then ""
    else if |parts| == 1 then parts[0]
    else parts[0] + "," + Join(parts[1..])
  }

  function JoinAll(r: Result<seq<string>, Unchecked>): Result<string, Unchecked>
  {
    match r
    case Ok(parts) => Ok(Join(parts))
    case Err(e) => Err(e)
  }

  /** The re-assembled name is the comma-join of the escaped components taken
      most specific first; it fails, with the same exception, exactly when
      escaping the components in that order fails. */
  lemma {:induction false} EscapedDnIsJoin(ldn: LdapName)
    ensures EscapedDn(ldn) == JoinAll(EscapeAll(Reversed(ldn)))
    decreases |ldn|
  {
    if |ldn| > 0 {
      var init := ldn[..|ldn| - 1];
      var rev := Reversed(ldn);
      assert rev[0] == ldn[|ldn| - 1] && rev[1..] == Reversed(init);
      EscapedDnIsJoin(init);
      match Escape(ldn[|ldn| - 1].text)
      case Err(_) =>
      case Ok(head) =>
        if |ldn| > 1 {
          match EscapeAll(Reversed(init))
          case Err(_) =>
          case Ok(tail) =>
            assert Join([head] + tail) == head + "," + Join(tail) by {
              assert ([head] + tail)[1..] == tail;
            }
        }
    }
  }

  lemma {:induction false} EscapeAllFails(rdns: seq<Rdn>)
    ensures EscapeAll(rdns).Err? <==> exists k :: 0 <= k < |rdns| && EndsInBackslash(rdns[k].text)
    decreases |rdns|
  {
    if rdns != [] {
      EscapeFails(rdns[0].text);
      EscapeAllFails(rdns[1..]);
      if EscapeAll(rdns[1..]).Err? {
        var k :| 0 <= k < |rdns[1..]| && EndsInBackslash(rdns[1..][k].text);
        assert rdns[k + 1] == rdns[1..][k];
      }
      if exists k :: 0 <= k < |rdns| && EndsInBackslash(rdns[k].text) {
        var k :| 0 <= k < |rdns| && EndsInBackslash(rdns[k].text);
        if k > 0 {
          assert rdns[1..][k - 1] == rdns[k];
        }
      }
    }
  }

  /** Every failure of escaping is a string index out of range. */
  lemma {:induction false} EscapeAllErrors(rdns: seq<Rdn>)
    ensures EscapeAll(rdns).Err? ==> EscapeAll(rdns).error.StringIndexOutOfBounds?
    decreases |rdns|
  {
    if rdns != [] {
      EscapeFails(rdns[0].text);
      EscapeAllErrors(rdns[1..]);
    }
  }

  /** Re-assembly fails exactly when some component's string form ends in a
      backslash: the escaper's look-ahead then runs off that component. */
  lemma EscapedDnFails(ldn: LdapName)
    ensures EscapedDn(ldn).Err? <==> exists i :: 0 <= i < |ldn| && EndsInBackslash(ldn[i].text)
  {
    EscapedDnIsJoin(ldn);
    var rev := Reversed(ldn);
    EscapeAllFails(rev);
    if exists k :: 0 <= k < |rev| && EndsInBackslash(rev[k].text) {
      var k :| 0 <= k < |rev| && EndsInBackslash(rev[k].text);
      ReversedAt(ldn, k);
    }
    if exists i :: 0 <= i < |ldn| && EndsInBackslash(ldn[i].text) {
      var i :| 0 <= i < |ldn| && EndsInBackslash(ldn[i].text);
      ReversedAt(ldn, |ldn| - 1 - i);
    }
  }

  /** The re-assembled name carries no unescaped `(`, `)` or NUL: it cannot
      close the membership clause it is placed in. */
  lemma {:induction false} EscapedDnHasNoMetachars(ldn: LdapName)
    requires EscapedDn(ldn).Ok?
    ensures NoMetachars(EscapedDn(ldn).value)
    decreases |ldn|
  {
    if |ldn| > 0 {
      var last := ldn[|ldn| - 1].text;
      EscapeHasNoMetachars(last);
      if |ldn| > 1 {
        EscapedDnHasNoMetachars(ldn[..|ldn| - 1]);
      }
    }
  }

  /** The re-assembled name starts with the most specific component, escaped,
      and ends with the root-most one, escaped. A single component is that
      component escaped; otherwise the most specific component is followed by
      one comma and the re-assembly of the rest. */
  lemma {:induction false} EscapedDnEnds(ldn: LdapName)
    requires |ldn| > 0 && EscapedDn(ldn).Ok?
    ensures Escape(ldn[|ldn| - 1].text).Ok? && Escape(ldn[0].text).Ok?
    ensures |ldn| > 1 ==> EscapedDn(ldn[..|ldn| - 1]).Ok?
    ensures var t := EscapedDn(ldn).value;
            var first := Escape(ldn[|ldn| - 1].text).value;
            var last := Escape(ldn[0].text).value;
            |first| <= |t| && t[..|first|] == first &&
            |last| <= |t| && t[|t| - |last|..] == last &&
            (|ldn| == 1 ==> t == first) &&
            (|ldn| > 1 ==> t == first + "," + EscapedDn(ldn[..|ldn| - 1]).value)
    decreases |ldn|
  {
    if |ldn| > 1 {
      var init := ldn[..|ldn| - 1];
      EscapedDnEnds(init);
      assert init[0] == ldn[0];
    }
  }
}
