// Escaping of one relative distinguished name for use inside an LDAP search
// filter (escapeSpecialCharactersForFilterWithStarAsRegex in GetGroups.java),
// and the reading of an assertion value back as section 3 of RFC 4515 defines
// its string encoding.
module FilterEscape {
  import opened Results

  /** True for the characters that may never stand unescaped in a filter value:
      they would end or open a filter component, or end the string. */
  predicate IsMetachar(c: char)
  {
    c == '(' || c == ')' || c == '\0'
  }

  /** True when no character of `t` is a filter metacharacter. */
  predicate NoMetachars(t: string)
  {
    forall k :: 0 <= k < |t| ==> !IsMetachar(t[k])
  }

  /** Text the escaper has nothing to do for: no backslash, no metacharacter. */
  predicate Plain(s: string)
  {
    forall k :: 0 <= k < |s| ==> s[k] != '\\' && !IsMetachar(s[k])
  }

  predicate EndsInBackslash(s: string)
  {
    |s| > 0 && s[|s| - 1] == '\\'
  }

  /** The escaped form of `s[i..]`, produced by the same left-to-right scan as
      the source: a backslash looks at the next character without a bounds
      check, and a `\*` pair is consumed as one unit. */
  function EscapeFrom(s: string, i: nat): Result<string, Unchecked>
    requires i <= |s|
    decreases |s| - i
  {
    if i == |s| then Ok("")
    else if s[i] == '\\' then
      if i + 1 == |s| then Err(StringIndexOutOfBounds(i + 1))
      else if s[i + 1] == '*' then Prepend("\\2a", EscapeFrom(s, i + 2))
      else Prepend("\\5c", EscapeFrom(s, i + 1))
    else if s[i] == '(' then Prepend("\\28", EscapeFrom(s, i + 1))
    else if s[i] == ')' then Prepend("\\29", EscapeFrom(s, i + 1))
    else if s[i] == '\0' then Prepend("\\00", EscapeFrom(s, i + 1))
    else Prepend([s[i]], EscapeFrom(s, i + 1))
  }

  function Escape(s: string): Result<string, Unchecked>
  {
    EscapeFrom(s, 0)
  }

  /** The source's loop: an index that an escaped wildcard advances twice,
      and a buffer that only grows. */
  method EscapeSpecialCharactersForFilter(filter: string) returns (r: Result<string, Unchecked>)
    ensures r == Escape(filter)
  {
    var sb := "";
    var i := 0;
    match EscapeFrom(filter, 0) {
      case Ok(t) => assert "" + t == t;
      case Err(_) =>
    }
    while i < |filter|
      invariant 0 <= i <= |filter|
      invariant Escape(filter) == Prepend(sb, EscapeFrom(filter, i))
    {
      var currentChar := filter[i];
      if currentChar == '\\' {
        if i + 1 == |filter| {
          return Err(StringIndexOutOfBounds(i + 1));
        }
        if filter[i + 1] == '*' {
          PrependPrepend(sb, "\\2a", EscapeFrom(filter, i + 2));
          sb := sb + "\\2a";
          i := i + 1;
        } else {
          PrependPrepend(sb, "\\5c", EscapeFrom(filter, i + 1));
          sb := sb + "\\5c";
        }
      } else if currentChar == '(' {
        PrependPrepend(sb, "\\28", EscapeFrom(filter, i + 1));
        sb := sb + "\\28";
      } else if currentChar == ')' {
        PrependPrepend(sb, "\\29", EscapeFrom(filter, i + 1));
        sb := sb + "\\29";
      } else if currentChar == '\0' {
        PrependPrepend(sb, "\\00", EscapeFrom(filter, i + 1));
        sb := sb + "\\00";
      } else {
        PrependPrepend(sb, [currentChar], EscapeFrom(filter, i + 1));
        sb := sb + [currentChar];
      }
      i := i + 1;
    }
    assert sb + "" == sb;
    return Ok(sb);
  }

  /** Escaping fails exactly when the input ends in a backslash: the look-ahead
      then reads one past the end. Every other backslash is followed by a
      character, and a final `*` consumed with its backslash is not one. */
  lemma {:induction false} EscapeFromFails(s: string, i: nat)
    requires i < |s|
    ensures EscapeFrom(s, i).Err? <==> EndsInBackslash(s)
    ensures EscapeFrom(s, i).Err? ==> EscapeFrom(s, i).error == StringIndexOutOfBounds(|s|)
    decreases |s| - i
  {
    if s[i] == '\\' && i + 1 < |s| && s[i + 1] == '*' {
      if i + 2 < |s| {
        EscapeFromFails(s, i + 2);
      }
    } else if i + 1 < |s| {
      EscapeFromFails(s, i + 1);
    }
  }

  lemma EscapeFails(s: string)
    ensures Escape(s).Err? <==> EndsInBackslash(s)
    ensures Escape(s).Err? ==> Escape(s).error == StringIndexOutOfBounds(|s|)
  {
    if |s| > 0 {
      EscapeFromFails(s, 0);
    }
  }

  /** One unit of a filter assertion value: a character to match literally, or
      the substring wildcard that an unescaped `*` denotes. */
  datatype Piece = Literal(c: char) | Wildcard

  predicate IsHexDigit(c: char)
  {
    '0' <= c <= '9' || 'a' <= c <= 'f' || 'A' <= c <= 'F'
  }

  function HexValue(c: char): (v: nat)
    requires IsHexDigit(c)
    ensures v < 16
  {
    if '0' <= c <= '9' then c as nat - '0' as nat
    else if 'a' <= c <= 'f' then c as nat - 'a' as nat + 10
    else c as nat - 'A' as nat + 10
  }

  function Cons(p: Piece, rest: Option<seq<Piece>>): Option<seq<Piece>>
  {
    match rest
    case None => None
    case Some(ps) => Some([p] + ps)
  }

  /** Reads the value part of an equality or substring filter item with the
      escaping of section 3 of RFC 4515: a backslash must introduce two hex
      digits, and `(`, `)` and NUL may not appear unescaped. A value holding an
      unescaped `*` is a substring pattern, and each such `*` is read as a
      wildcard. A `\XX` pair is read as the character with code XX; the RFC
      escapes UTF-8 octets, which agrees for the ASCII escapes the escaper
      produces. None when `t` is not such a value. */
  function Decode(t: string): Option<seq<Piece>>
    decreases |t|
  {
    if t == [] then Some([])
    else if t[0] == '\\' then
      if |t| >= 3 && IsHexDigit(t[1]) && IsHexDigit(t[2]) then
        Cons(Literal((HexValue(t[1]) * 16 + HexValue(t[2])) as char), Decode(t[3..]))
      else None
    else if IsMetachar(t[0]) then None
    else if t[0] == '*' then Cons(Wildcard, Decode(t[1..]))
    else Cons(Literal(t[0]), Decode(t[1..]))
  }

  /** What a name component is meant to match once it is placed in a filter:
      an escaped wildcard `\*` is a literal asterisk, a bare `*` stays a
      wildcard, and every other character stands for itself. */
  function Meaning(s: string): seq<Piece>
    decreases |s|
  {
    if s == [] then []
    else if s[0] == '\\' && |s| >= 2 && s[1] == '*' then [Literal('*')] + Meaning(s[2..])
    else if s[0] == '*' then [Wildcard] + Meaning(s[1..])
    else [Literal(s[0])] + Meaning(s[1..])
  }

  lemma {:induction false} DecodeEscapeFrom(s: string, i: nat)
    requires i <= |s| && EscapeFrom(s, i).Ok?
    ensures Decode(EscapeFrom(s, i).value) == Some(Meaning(s[i..]))
    decreases |s| - i
  {
    if i < |s| {
      var t := EscapeFrom(s, i).value;
      var rest := s[i..];
      assert rest[0] == s[i] && rest[1..] == s[i + 1..];
      if s[i] == '\\' && s[i + 1] == '*' {
        DecodeEscapeFrom(s, i + 2);
        assert rest[2..] == s[i + 2..];
        assert t[3..] == EscapeFrom(s, i + 2).value;
        assert (2 * 16 + 10) as char == '*';
      } else if s[i] == '\\' {
        DecodeEscapeFrom(s, i + 1);
        assert t[3..] == EscapeFrom(s, i + 1).value;
        assert (5 * 16 + 12) as char == '\\';
      } else if s[i] == '(' {
        DecodeEscapeFrom(s, i + 1);
        assert t[3..] == EscapeFrom(s, i + 1).value;
        assert (2 * 16 + 8) as char == '(';
      } else if s[i] == ')' {
        DecodeEscapeFrom(s, i + 1);
        assert t[3..] == EscapeFrom(s, i + 1).value;
        assert (2 * 16 + 9) as char == ')';
      } else if s[i] == '\0' {
        DecodeEscapeFrom(s, i + 1);
        assert t[3..] == EscapeFrom(s, i + 1).value;
        assert (0 * 16 + 0) as char == '\0';
      } else {
        DecodeEscapeFrom(s, i + 1);
        assert t[1..] == EscapeFrom(s, i + 1).value;
      }
    }
  }

  /** The escaped text is a well-formed filter value, and reading it back gives
      the input with each escaped wildcard turned into a literal asterisk. */
  lemma DecodeEscape(s: string)
    requires Escape(s).Ok?
    ensures Decode(Escape(s).value) == Some(Meaning(s))
  {
    DecodeEscapeFrom(s, 0);
    assert s[0..] == s;
  }

  /** A well-formed filter value has no unescaped `(`, `)` or NUL. */
  lemma {:induction false} DecodableHasNoMetachars(t: string)
    requires Decode(t).Some?
    ensures NoMetachars(t)
    decreases |t|
  {
    if t != [] {
      if t[0] == '\\' {
        DecodableHasNoMetachars(t[3..]);
        forall k | 3 <= k < |t| ensures !IsMetachar(t[k]) {
          assert t[k] == t[3..][k - 3];
        }
      } else {
        DecodableHasNoMetachars(t[1..]);
        forall k | 1 <= k < |t| ensures !IsMetachar(t[k]) {
          assert t[k] == t[1..][k - 1];
        }
      }
    }
  }

  /** The escaper never lets a filter metacharacter through. */
  lemma EscapeHasNoMetachars(s: string)
    requires Escape(s).Ok?
    ensures NoMetachars(Escape(s).value)
  {
    DecodeEscape(s);
    DecodableHasNoMetachars(Escape(s).value);
  }

  /** Text with no backslash and no filter metacharacter passes through
      unchanged, a bare `*` included. */
  lemma {:induction false} EscapeFromPlain(s: string, i: nat)
    requires i <= |s|
    requires forall k :: i <= k < |s| ==> s[k] != '\\' && !IsMetachar(s[k])
    ensures EscapeFrom(s, i) == Ok(s[i..])
    decreases |s| - i
  {
    if i < |s| {
      EscapeFromPlain(s, i + 1);
      assert s[i..] == [s[i]] + s[i + 1..];
    }
  }

  lemma EscapePlain(s: string)
    requires Plain(s)
    ensures Escape(s) == Ok(s)
  {
    EscapeFromPlain(s, 0);
    assert s[0..] == s;
  }
}
