// Worked cases of the group lookup: one escaped component, a DN in both
// membership conventions, and searches over several bases.
module EscapeScenarios {
  import opened Results
  import opened FilterEscape

  const Sample := "a(b)c\\d\0e\\*f*"

  lemma EscapeSampleTail()
    ensures EscapeFrom(Sample, 7) == Ok("\\00e\\2af*")
  {
    var s := Sample;
    assert s[12] == '*' && s[11] == 'f' && s[10] == '*' && s[9] == '\\' && s[8] == 'e' && s[7] == '\0';
    assert EscapeFrom(s, 13) == Ok("");
    assert EscapeFrom(s, 12) == Prepend("*", EscapeFrom(s, 13));
    assert EscapeFrom(s, 11) == Prepend("f", EscapeFrom(s, 12));
    assert EscapeFrom(s, 9) == Prepend("\\2a", EscapeFrom(s, 11));
    assert EscapeFrom(s, 8) == Prepend("e", EscapeFrom(s, 9));
    assert EscapeFrom(s, 7) == Prepend("\\00", EscapeFrom(s, 8));
    assert "\\00" + ("e" + ("\\2a" + ("f" + ("*" + "")))) == "\\00e\\2af*";
  }

  /** Each special character in its escaped form, a bare `*` passed through,
      and all other characters unchanged and in place. */
  lemma EscapeExample()
    ensures Escape(Sample) == Ok("a\\28b\\29c\\5cd\\00e\\2af*")
  {
    var s := Sample;
    EscapeSampleTail();
    assert s[6] == 'd' && s[5] == '\\' && s[4] == 'c' && s[3] == ')' && s[2] == 'b' && s[1] == '(' && s[0] == 'a';
    assert EscapeFrom(s, 6) == Prepend("d", EscapeFrom(s, 7));
    assert EscapeFrom(s, 5) == Prepend("\\5c", EscapeFrom(s, 6));
    assert EscapeFrom(s, 4) == Prepend("c", EscapeFrom(s, 5));
    assert EscapeFrom(s, 3) == Prepend("\\29", EscapeFrom(s, 4));
    assert EscapeFrom(s, 2) == Prepend("b", EscapeFrom(s, 3));
    assert EscapeFrom(s, 1) == Prepend("\\28", EscapeFrom(s, 2));
    assert EscapeFrom(s, 0) == Prepend("a", EscapeFrom(s, 1));
    assert "a" + ("\\28" + ("b" + ("\\29" + ("c" + ("\\5c" + ("d" + "\\00e\\2af*")))))) == "a\\28b\\29c\\5cd\\00e\\2af*";
  }
}

module MembershipScenarios {
  import opened Results
  import opened FilterEscape
  import opened LdapNames
  import opened LdapGroups

  /** A four-component name such as cn=alice,ou=users,dc=example,dc=com, held
      in JNDI order with the root first. With DN membership the value is the
      DN string again, most specific component first; with posixGroup
      membership it is the bare value of the most specific component. */
  lemma FourComponentExample(root: Rdn, org: Rdn, unit: Rdn, user: Rdn)
    requires Plain(root.text) && Plain(org.text) && Plain(unit.text) && Plain(user.text)
    ensures MembershipValue("member", [root, org, unit, user]) ==
            Ok(user.text + "," + unit.text + "," + org.text + "," + root.text)
    ensures MembershipValue(MemberUid, [root, org, unit, user]) == Ok(user.value)
  {
    var ldn := [root, org, unit, user];
    EscapePlain(root.text);
    EscapePlain(org.text);
    EscapePlain(unit.text);
    EscapePlain(user.text);
    assert ldn[..1] == [root];
    assert ldn[..2] == [root, org] && ldn[..2][..1] == ldn[..1];
    assert ldn[..3] == [root, org, unit] && ldn[..3][..2] == ldn[..2];
    assert EscapedDn(ldn[..1]) == Ok(root.text);
    assert EscapedDn(ldn[..2]) == Prepend(org.text + ",", EscapedDn(ldn[..1]));
    assert EscapedDn(ldn[..3]) == Prepend(unit.text + ",", EscapedDn(ldn[..2]));
    assert EscapedDn(ldn) == Prepend(user.text + ",", EscapedDn(ldn[..3]));
    assert user.text + "," + (unit.text + "," + (org.text + "," + root.text)) ==
           user.text + "," + unit.text + "," + org.text + "," + root.text;
  }

  /** A memberUid value goes into the filter unescaped: a user id ending in a
      parenthesis unbalances the filter, which an escaped DN never does. */
  lemma UidValueIsNotEscaped(groupNameListFilter: string, ldn: LdapName, id: string)
    requires Balanced(groupNameListFilter) && NoParens(id)
    requires |ldn| > 0 && ldn[|ldn| - 1].value == id + ")"
    ensures MembershipValue(MemberUid, ldn) == Ok(id + ")")
    ensures !Balanced(SearchFilter(groupNameListFilter, MemberUid, id + ")"))
  {
    var f, a, v := groupNameListFilter, MemberUid, id + ")";
    DepthLift(f, 0, 0, 1);
    DepthAppend("(&", f, 0);
    DepthAppend("(&" + f, "(", 0);
    assert NoParens(a);
    DepthNoParens(a, 2);
    DepthAppend("(&" + f + "(", a, 0);
    DepthAppend("(&" + f + "(" + a, "=", 0);
    DepthNoParens(id, 2);
    DepthAppend(id, ")", 2);
    DepthAppend("(&" + f + "(" + a + "=", v, 0);
    assert Depth("))", 1) == None;
    DepthAppend("(&" + f + "(" + a + "=" + v, "))", 0);
  }
}

module SearchScenarios {
  import opened Results
  import opened GroupSearch

  /** Two bases, each answering with one two-valued entry: four names in base
      order, then value order, with nothing sorted or merged even when the
      bases share a name. */
  lemma TwoBasesExample(b1: string, b2: string, filter: string, controls: SearchControls,
                        property: string, dir: Directory, e1: Entry, e2: Entry,
                        g1: string, g2: string, g3: string, g4: string)
    requires dir.search(RequestFor(b1, filter, controls, dir)) == Ok([e1])
    requires dir.search(RequestFor(b2, filter, controls, dir)) == Ok([e2])
    requires ValuesOf(e1, property) == [g1, g2] && ValuesOf(e2, property) == [g3, g4]
    ensures ListOfNames([b1, b2], filter, controls, property, dir) == Ok([g1, g2, g3, g4])
  {
    assert [b1, b2][..1] == [b1] && [b1][..0] == [];
    assert [e1][..0] == [] && [e2][..0] == [];
    assert NamesFromEntries([e1], property) == [g1, g2];
    assert NamesFromEntries([e2], property) == [g3, g4];
    assert ListOfNames([b1], filter, controls, property, dir) == Ok([] + [g1, g2]);
    assert ListOfNames([b1, b2], filter, controls, property, dir) == Ok([] + [g1, g2] + [g3, g4]);
    assert [] + [g1, g2] + [g3, g4] == [g1, g2, g3, g4];
  }

  /** A failure on the second of three bases is the result: the names of the
      first base are dropped and the third base is never searched. */
  lemma FailureOnSecondBaseExample(b1: string, b2: string, b3: string, filter: string,
                                   controls: SearchControls, property: string, dir: Directory,
                                   entries: seq<Entry>, message: string)
    requires dir.search(RequestFor(b1, filter, controls, dir)) == Ok(entries)
    requires dir.search(RequestFor(b2, filter, controls, dir)) == Err(message)
    ensures ListOfNames([b1, b2, b3], filter, controls, property, dir) == Err(message)
    ensures Requests([b1, b2, b3], filter, controls, property, dir) ==
            [RequestFor(b1, filter, controls, dir), RequestFor(b2, filter, controls, dir)]
  {
    var bases := [b1, b2, b3];
    assert bases[..2] == [b1, b2] && bases[..2][..1] == [b1] && [b1][..0] == [];
    assert ListOfNames([b1], filter, controls, property, dir).Ok?;
    assert ListOfNames([b1, b2], filter, controls, property, dir) == Err(message);
    assert Requests([b1], filter, controls, property, dir) == [RequestFor(b1, filter, controls, dir)];
    assert Requests([b1, b2], filter, controls, property, dir) ==
           [RequestFor(b1, filter, controls, dir), RequestFor(b2, filter, controls, dir)];
  }
}
