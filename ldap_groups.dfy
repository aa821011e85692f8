// The groups of a user, from the user's name in the directory to the list
// handed back to the caller (getGroups, getLDAPGroupsListOfUser in
// GetGroups.java).
module LdapGroups {
  import opened Results
  import opened FilterEscape
  import opened LdapNames
  import opened GroupSearch

  /** The membership attribute of a posixGroup (RFC 2307): it holds user ids,
      not DNs. */
  const MemberUid := "memberUid"

  const MembershipNotSet := "Membership attribute is not set in configurations."

  /** The settings this code reads; a null membership attribute is None. */
  datatype Config = Config(
    groupSearchBase: seq<string>,
    groupNameListFilter: string,
    groupNameAttribute: string,
    membershipAttribute: Option<string>)

  /** The collaborators the code calls. `nameInSpace` finds the DN of a user
      (null when there is none) or raises a directory error; `parseName` turns
      a DN string into its components or rejects it. */
  datatype Connection = Connection(
    nameInSpace: string -> Result<Option<string>, string>,
    parseName: string -> Result<LdapName, string>,
    directory: Directory)

  /** Why a lookup failed: the configuration error and the directory errors
      are both reported to the caller by their message; the unchecked
      exceptions escape. */
  datatype Failure =
    | ConfigurationError(message: string)
    | NamingError(message: string)
    | Runtime(exception: Unchecked)

  /** What the entry point gives back: a non-empty list, null, an error value,
      or an exception that leaves it. */
  datatype Reply =
    | Groups(names: seq<string>)
    | Nil
    | Error(message: string)
    | Thrown(exception: Unchecked)

  predicate MembershipAttributeSet(config: Config)
  {
    config.membershipAttribute.Some? && |config.membershipAttribute.value| >= 1
  }

  /** The value a group's membership attribute must hold for the user: the
      bare value of the most specific component for memberUid, the escaped
      DN for any other attribute. */
  function MembershipValue(membershipAttribute: string, ldn: LdapName): (r: Result<string, Unchecked>)
    ensures membershipAttribute == MemberUid ==>
              (r.Ok? <==> |ldn| > 0) && (r.Ok? ==> r.value == ldn[|ldn| - 1].value) &&
              (r.Err? ==> r.error == IndexOutOfBounds(-1))
    ensures membershipAttribute != MemberUid ==>
              (r.Ok? <==> forall i :: 0 <= i < |ldn| ==> !EndsInBackslash(ldn[i].text))
    ensures membershipAttribute != MemberUid && r.Ok? ==> NoMetachars(r.value)
    ensures membershipAttribute != MemberUid ==> r == JoinAll(EscapeAll(Reversed(ldn)))
  {
    if membershipAttribute == MemberUid then
      if |ldn| == 0 then Err(IndexOutOfBounds(-1)) else Ok(ldn[|ldn| - 1].value)
    else
      EscapedDnFails(ldn);
      EscapedDnIsJoin(ldn);
      if EscapedDn(ldn).Ok? then EscapedDnHasNoMetachars(ldn); EscapedDn(ldn)
      else EscapedDn(ldn)
  }

  function SearchFilter(groupNameListFilter: string, membershipAttribute: string, membershipValue: string): string
  {
    "(&" + groupNameListFilter + "(" + membershipAttribute + "=" + membershipValue + "))"
  }

  function GroupControls(config: Config): SearchControls
  {
    SearchControls(SubtreeScope, [config.groupNameAttribute])
  }

  /** The filter the group search uses, or None when the user has no DN. The
      user's DN is looked up first; the membership attribute is checked
      before it is known whether the user was found. */
  function MembershipFilter(userName: string, config: Config, conn: Connection): (r: Result<Option<string>, Failure>)
    ensures conn.nameInSpace(userName).Err? ==> r == Err(NamingError(conn.nameInSpace(userName).error))
    ensures conn.nameInSpace(userName).Ok? && !MembershipAttributeSet(config) ==>
              r == Err(ConfigurationError(MembershipNotSet))
    ensures r == Ok(None) <==> conn.nameInSpace(userName) == Ok(None) && MembershipAttributeSet(config)
    ensures r.Ok? && r.value.Some? ==>
              MembershipAttributeSet(config) &&
              conn.nameInSpace(userName).Ok? && conn.nameInSpace(userName).value.Some? &&
              var parsed := conn.parseName(conn.nameInSpace(userName).value.value);
              var attribute := config.membershipAttribute.value;
              parsed.Ok? && MembershipValue(attribute, parsed.value).Ok? &&
              r.value.value == SearchFilter(config.groupNameListFilter, attribute, MembershipValue(attribute, parsed.value).value)
    ensures r.Err? && r.error.Runtime? ==>
              MembershipAttributeSet(config) &&
              conn.nameInSpace(userName).Ok? && conn.nameInSpace(userName).value.Some? &&
              var parsed := conn.parseName(conn.nameInSpace(userName).value.value);
              parsed.Ok? && MembershipValue(config.membershipAttribute.value, parsed.value) == Err(r.error.exception)
    ensures conn.nameInSpace(userName).Ok? && conn.nameInSpace(userName).value.Some? && MembershipAttributeSet(config) ==>
              var parsed := conn.parseName(conn.nameInSpace(userName).value.value);
              var attribute := config.membershipAttribute.value;
              (parsed.Err? ==> r == Err(NamingError(parsed.error))) &&
              (parsed.Ok? && MembershipValue(attribute, parsed.value).Err? ==>
                 r == Err(Runtime(MembershipValue(attribute, parsed.value).error))) &&
              (parsed.Ok? && MembershipValue(attribute, parsed.value).Ok? ==>
                 r == Ok(Some(SearchFilter(config.groupNameListFilter, attribute, MembershipValue(attribute, parsed.value).value))))
  {
    match conn.nameInSpace(userName)
    case Err(message) => Err(NamingError(message))
    case Ok(nameInSpace) =>
      if !MembershipAttributeSet(config) then Err(ConfigurationError(MembershipNotSet))
      else if nameInSpace.None? then Ok(None)
      else
        match conn.parseName(nameInSpace.value)
        case Err(message) => Err(NamingError(message))
        case Ok(ldn) =>
          var attribute := config.membershipAttribute.value;
          match MembershipValue(attribute, ldn)
          case Err(e) => Err(Runtime(e))
          case Ok(value) => Ok(Some(SearchFilter(config.groupNameListFilter, attribute, value)))
  }

  /** The groups of a user: nothing is searched unless a filter was built; the
      names are those collected over the configured bases, and a failed search
      becomes a directory error with its message. */
  function GroupsListOfUser(userName: string, config: Config, conn: Connection): (r: Result<seq<string>, Failure>)
    ensures var mf := MembershipFilter(userName, config, conn);
            (mf.Err? ==> r == Err(mf.error)) &&
            (mf == Ok(None) ==> r == Ok([])) &&
            (mf.Ok? && mf.value.Some? ==>
               var found := ListOfNames(config.groupSearchBase, mf.value.value, GroupControls(config),
                                        config.groupNameAttribute, conn.directory);
               (r.Ok? <==> found.Ok?) &&
               (found.Ok? ==> r.value == found.value) &&
               (found.Err? ==> r.error == NamingError(found.error)))
  {
    match MembershipFilter(userName, config, conn)
    case Err(f) => Err(f)
    case Ok(None) => Ok([])
    case Ok(Some(filter)) =>
      match ListOfNames(config.groupSearchBase, filter, GroupControls(config), config.groupNameAttribute, conn.directory)
      case Err(message) => Err(NamingError(message))
      case Ok(names) => Ok(names)
  }

  /** The group searches a lookup sends to the directory, in order. */
  function IssuedSearches(userName: string, config: Config, conn: Connection): seq<SearchRequest>
  {
    match MembershipFilter(userName, config, conn)
    case Ok(Some(filter)) =>
      Requests(config.groupSearchBase, filter, GroupControls(config), config.groupNameAttribute, conn.directory)
    case _ => []
  }

  /** The entry point: an empty list becomes null, a configuration or
      directory error becomes an error value with the same message. */
  function GetGroups(userName: string, config: Config, conn: Connection): (r: Reply)
    ensures var g := GroupsListOfUser(userName, config, conn);
            (r == Nil <==> g == Ok([])) &&
            (r.Groups? <==> g.Ok? && g.value != []) &&
            (r.Groups? ==> r.names == g.value) &&
            (r.Error? <==> g.Err? && !g.error.Runtime?) &&
            (r.Error? ==> r.message == g.error.message) &&
            (r.Thrown? <==> g.Err? && g.error.Runtime?) &&
            (r.Thrown? ==> r.exception == g.error.exception)
  {
    match GroupsListOfUser(userName, config, conn)
    case Ok(names) => if |names| == 0 then Nil else Groups(names)
    case Err(ConfigurationError(message)) => Error(message)
    case Err(NamingError(message)) => Error(message)
    case Err(Runtime(e)) => Thrown(e)
  }

  /** A missing or empty membership attribute is reported once the DN lookup
      has returned, whether or not the user exists, and nothing is searched. */
  lemma ConfigurationCheckedBeforeNotFound(userName: string, config: Config, conn: Connection)
    requires conn.nameInSpace(userName).Ok?
    requires config.membershipAttribute.None? || config.membershipAttribute == Some("")
    ensures GetGroups(userName, config, conn) == Error("Membership attribute is not set in configurations.")
    ensures IssuedSearches(userName, config, conn) == []
  {
  }

  /** A user with no DN has no groups, the caller gets null, and no group
      search is sent. */
  lemma UnknownUserHasNoGroups(userName: string, config: Config, conn: Connection)
    requires conn.nameInSpace(userName) == Ok(None)
    requires MembershipAttributeSet(config)
    ensures GroupsListOfUser(userName, config, conn) == Ok([])
    ensures GetGroups(userName, config, conn) == Nil
    ensures IssuedSearches(userName, config, conn) == []
  {
  }

  /** For a user with a DN, every group search goes to the configured bases in
      order, with the filter template around the membership value and a
      subtree scope that asks for the group name attribute only. */
  lemma SearchesUseComposedFilter(userName: string, config: Config, conn: Connection,
                                  dn: string, ldn: LdapName, value: string)
    requires conn.nameInSpace(userName) == Ok(Some(dn))
    requires conn.parseName(dn) == Ok(ldn)
    requires MembershipAttributeSet(config)
    requires MembershipValue(config.membershipAttribute.value, ldn) == Ok(value)
    ensures var rs := IssuedSearches(userName, config, conn);
            |rs| <= |config.groupSearchBase| &&
            forall k :: 0 <= k < |rs| ==>
              rs[k].base == conn.directory.escapeBase(config.groupSearchBase[k]) &&
              rs[k].filter == "(&" + config.groupNameListFilter + "(" + config.membershipAttribute.value + "=" + value + "))" &&
              rs[k].controls.scope == SubtreeScope &&
              rs[k].controls.returningAttributes == [config.groupNameAttribute]
    ensures MembershipFilter(userName, config, conn) ==
            Ok(Some(SearchFilter(config.groupNameListFilter, config.membershipAttribute.value, value)))
    ensures IssuedSearches(userName, config, conn) ==
            Requests(config.groupSearchBase, SearchFilter(config.groupNameListFilter, config.membershipAttribute.value, value),
                     GroupControls(config), config.groupNameAttribute, conn.directory)
  {
    var filter := SearchFilter(config.groupNameListFilter, config.membershipAttribute.value, value);
    RequestsFollowBases(config.groupSearchBase, filter, GroupControls(config), config.groupNameAttribute, conn.directory);
  }

  /** The reply depends on the directory's answers only to the searches
      issued: no other search is made. */
  lemma ReplyDependsOnlyOnIssuedSearches(userName: string, config: Config, conn: Connection,
                                         search2: SearchRequest -> Result<seq<Entry>, string>)
    requires forall r :: r in IssuedSearches(userName, config, conn) ==> conn.directory.search(r) == search2(r)
    ensures GetGroups(userName, config, conn) ==
            GetGroups(userName, config, conn.(directory := conn.directory.(search := search2)))
  {
    match MembershipFilter(userName, config, conn)
    case Ok(Some(filter)) =>
      ListOfNamesDependsOnlyOnRequests(config.groupSearchBase, filter, GroupControls(config),
                                       config.groupNameAttribute, conn.directory, search2);
    case _ =>
  }

  /** With DN membership, a user whose name has a component ending in a
      backslash makes the escaper read past that component: the exception
      leaves the entry point uncaught and no group search is sent. */
  lemma TrailingBackslashIsUncaught(userName: string, config: Config, conn: Connection,
                                    dn: string, ldn: LdapName, i: nat)
    requires conn.nameInSpace(userName) == Ok(Some(dn))
    requires conn.parseName(dn) == Ok(ldn)
    requires MembershipAttributeSet(config) && config.membershipAttribute.value != MemberUid
    requires i < |ldn| && EndsInBackslash(ldn[i].text)
    ensures GetGroups(userName, config, conn).Thrown?
    ensures GetGroups(userName, config, conn).exception.StringIndexOutOfBounds?
    ensures IssuedSearches(userName, config, conn) == []
  {
    EscapedDnFails(ldn);
    EscapedDnIsJoin(ldn);
    EscapeAllErrors(Reversed(ldn));
  }

  /** Parenthesis depth after reading `s` from depth `d`; None once a `)`
      closes more than is open. */
  function Depth(s: string, d: nat): Option<nat>
    decreases |s|
  {
    if s == [] then Some(d)
    else if s[0] == '(' then Depth(s[1..], d + 1)
    else if s[0] == ')' then if d == 0 then None else Depth(s[1..], d - 1)
    else Depth(s[1..], d)
  }

  predicate Balanced(s: string)
  {
    Depth(s, 0) == Some(0)
  }

  predicate NoParens(s: string)
  {
    forall k :: 0 <= k < |s| ==> s[k] != '(' && s[k] != ')'
  }

  lemma {:induction false} DepthAppend(a: string, b: string, d: nat)
    ensures Depth(a + b, d) == match Depth(a, d) case None => None case Some(e) => Depth(b, e)
    decreases |a|
  {
    if a == [] {
      assert a + b == b;
    } else {
      assert (a + b)[0] == a[0] && (a + b)[1..] == a[1..] + b;
      if a[0] == '(' {
        DepthAppend(a[1..], b, d + 1);
      } else if a[0] == ')' {
        if d > 0 {
          DepthAppend(a[1..], b, d - 1);
        }
      } else {
        DepthAppend(a[1..], b, d);
      }
    }
  }

  lemma {:induction false} DepthLift(s: string, d: nat, e: nat, k: nat)
    requires Depth(s, d) == Some(e)
    ensures Depth(s, d + k) == Some(e + k)
    decreases |s|
  {
    if s != [] {
      if s[0] == '(' {
        DepthLift(s[1..], d + 1, e, k);
      } else if s[0] == ')' {
        DepthLift(s[1..], d - 1, e, k);
      } else {
        DepthLift(s[1..], d, e, k);
      }
    }
  }

  lemma {:induction false} DepthNoParens(s: string, d: nat)
    requires NoParens(s)
    ensures Depth(s, d) == Some(d)
    decreases |s|
  {
    if s != [] {
      assert NoParens(s[1..]) by {
        forall k | 0 <= k < |s[1..]| ensures s[1..][k] != '(' && s[1..][k] != ')' {
          assert s[1..][k] == s[k + 1];
        }
      }
      DepthNoParens(s[1..], d);
    }
  }

  /** The membership clause cannot break out of the filter: with a balanced
      group filter and an attribute name without parentheses, the composed
      filter is balanced whatever DN the user has, because the escaped DN
      carries no unescaped parenthesis. */
  lemma DnFilterIsBalanced(groupNameListFilter: string, membershipAttribute: string, ldn: LdapName)
    requires membershipAttribute != MemberUid
    requires MembershipValue(membershipAttribute, ldn).Ok?
    requires Balanced(groupNameListFilter) && NoParens(membershipAttribute)
    ensures Balanced(SearchFilter(groupNameListFilter, membershipAttribute, MembershipValue(membershipAttribute, ldn).value))
  {
    var value := MembershipValue(membershipAttribute, ldn).value;
    assert NoParens(value) by {
      assert NoMetachars(value);
    }
    var f, a := groupNameListFilter, membershipAttribute;
    DepthLift(f, 0, 0, 1);
    assert Depth("(&", 0) == Some(1);
    DepthAppend("(&", f, 0);
    DepthAppend("(&" + f, "(", 0);
    assert Depth("(", 1) == Some(2);
    DepthNoParens(a, 2);
    DepthAppend("(&" + f + "(", a, 0);
    assert Depth("=", 2) == Some(2);
    DepthAppend("(&" + f + "(" + a, "=", 0);
    DepthNoParens(value, 2);
    DepthAppend("(&" + f + "(" + a + "=", value, 0);
    assert Depth("))", 2) == Some(0);
    DepthAppend("(&" + f + "(" + a + "=" + value, "))", 0);
  }
}
