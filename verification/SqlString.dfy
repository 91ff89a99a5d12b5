/** SQL escaping (src/frontend/sql_string.hpp), the literal that the status requests quote
    (src/frontend/FileStatusRequest.hpp) and request tokens (src/frontend/token_validator.cpp). */
module SqlString {
  import opened Sequences

  /** The characters that _escape_sql looks for. */
  predicate Special(c: char) { c == '\\' || c == '\'' || c == '%' || c == '\"' }

  predicate Plain(s: string) { forall c :: c in s ==> !Special(c) }

  function EscapeChar(c: char): string { if Special(c) then ['\\', c] else [c] }

  /** Each special character gets a backslash in front, the others stay. */
  function Escape(s: string): string {
    if s == "" then "" else EscapeChar(s[0]) + Escape(s[1..])
  }

  /** Drops each backslash and keeps the character after it. */
  function Unescape(s: string): string {
    if s == "" then ""
    else if s[0] == '\\' && |s| > 1 then [s[1]] + Unescape(s[2..])
    else [s[0]] + Unescape(s[1..])
  }

  lemma {:induction false} EscapeConcat(a: string, b: string)
    ensures Escape(a + b) == Escape(a) + Escape(b)
  {
    if a == "" {
      assert a + b == b;
    } else {
      assert (a + b)[1..] == a[1..] + b;
      EscapeConcat(a[1..], b);
    }
  }

  /** Escaping is the identity exactly on strings without special characters. */
  lemma {:induction false} EscapeIdentity(s: string)
    ensures |Escape(s)| >= |s|
    ensures Escape(s) == s <==> Plain(s)
    ensures Escape(s) == s <==> '\\' !in s && '\'' !in s && '%' !in s && '"' !in s
  {
    if s != "" {
      EscapeIdentity(s[1..]);
      assert s == [s[0]] + s[1..];
      if Special(s[0]) {
        assert |Escape(s)| == 2 + |Escape(s[1..])|;
      } else if Escape(s) == s {
        assert Escape(s)[1..] == Escape(s[1..]);
      }
    }
  }

  /** Position of the first special character at or after pos, |s| if there is none. */
  method FindFirstOf(s: string, pos: nat) returns (i: nat)
    ensures pos >= |s| ==> i == |s|
    ensures pos < |s| ==> pos <= i <= |s| && Plain(s[pos..i])
    ensures i < |s| ==> Special(s[i])
  {
    if pos >= |s| {
      return |s|;
    }
    i := pos;
    while i < |s| && !Special(s[i])
      invariant pos <= i <= |s| && Plain(s[pos..i])
    {
      i := i + 1;
    }
  }

  lemma OneEscaped(c: char)
    requires Special(c)
    ensures Escape([c]) == ['\\', c]
  {
    assert [c][1..] == "";
    assert ['\\', c] + "" == ['\\', c];
  }

  /** Escaping one more special character and then a stretch of plain ones. */
  lemma EscapeStep(original: string, done: nat, plain: string)
    requires done < |original| && Special(original[done]) && Plain(plain)
    requires plain <= original[done + 1..]
    ensures Escape(original[..done + 1 + |plain|]) == Escape(original[..done]) + ['\\', original[done]] + plain
  {
    var c := [original[done]];
    OneEscaped(original[done]);
    assert original[..done + 1 + |plain|] == original[..done] + c + plain;
    EscapeIdentity(plain);
    hide Escape, Special, Plain;
    EscapeConcat(original[..done], c);
    EscapeConcat(original[..done] + c, plain);
  }

  /** The loop has treated the first done characters, and position i comes right after them. */
  ghost predicate Treated(original: string, done: nat, s: string, i: nat) {
    && done <= |original| && i == |Escape(original[..done])|
    && s == Escape(original[..done]) + original[done..]
  }

  lemma InsertBackslash(done: string, todo: string)
    requires todo != ""
    ensures var s := done + todo;
      s[..|done|] + "\\" + s[|done|..] == (done + ['\\', todo[0]]) + todo[1..]
  {
  }

  lemma TreatNext(original: string, done: nat, s: string, i: nat, grown: string, j: nat)
    requires Treated(original, done, s, i) && i < |s| && Special(s[i])
    requires grown == s[..i] + "\\" + s[i..]
    requires i + 2 <= j <= |grown| && Plain(grown[i + 2..j])
    ensures Treated(original, done + j - i - 1, grown, j)
  {
    var head := Escape(original[..done]) + ['\\', original[done]];
    var rest := original[done + 1..];
    assert grown == head + rest by {
      InsertBackslash(Escape(original[..done]), original[done..]);
      assert original[done..][1..] == rest;
    }
    ConcatParts(head, rest);
    var plain := grown[i + 2..j];
    var m := j - i - 2;
    assert plain == grown[i + 2..][..m] == rest[..m];
    var next := done + 1 + m;
    EscapeStep(original, done, plain);
    assert Escape(original[..next]) == head + plain;
    assert rest == plain + rest[m..];
    assert rest[m..] == original[next..];
    hide Escape, Special, Plain;
    ConcatAssociative(head, plain, rest[m..]);
  }

  /** _escape_sql: inserts backslashes from left to right while the string grows. */
  method EscapeSql(original: string) returns (s: string)
    ensures s == Escape(original)
  {
    s := original;
    var i: nat := FindFirstOf(s, 0);
    ghost var done: nat := i;
    EscapeIdentity(original[..done]);
    while i < |s|
      invariant i <= |s| && Treated(original, done, s, i)
      invariant i < |s| ==> Special(s[i])
      decreases |s| - i
    {
      ghost var before, at: nat := s, i;
      s := s[..i] + "\\" + s[i..];
      i := FindFirstOf(s, i + 2);
      TreatNext(original, done, before, at, s, i);
      done := done + i - at - 1;
    }
    assert original[..done] == original;
  }

  lemma UnescapeHead(c: char, rest: string)
    ensures Unescape(EscapeChar(c) + rest) == [c] + Unescape(rest)
  {
    var all := EscapeChar(c) + rest;
    assert all[|EscapeChar(c)|..] == rest;
  }

  /** Unescape undoes Escape, also when more text follows. */
  lemma {:induction false} UnescapeEscape(s: string, rest: string)
    ensures Unescape(Escape(s) + rest) == s + Unescape(rest)
  {
    if s == "" {
      assert Escape(s) + rest == rest;
    } else {
      UnescapeEscape(s[1..], rest);
      UnescapeHead(s[0], Escape(s[1..]) + rest);
      ConcatAssociative(EscapeChar(s[0]), Escape(s[1..]), rest);
      ConcatAssociative([s[0]], s[1..], Unescape(rest));
      assert s == [s[0]] + s[1..];
    }
  }

  /** Hence escaping is injective, with Unescape as its left inverse. */
  lemma EscapeRoundTrip(s: string)
    ensures Unescape(Escape(s)) == s
  {
    UnescapeEscape(s, "");
    assert Escape(s) + "" == Escape(s);
    assert s + "" == s;
  }

  /** Backslashes stand in pairs with a special character, and no special character is bare. */
  predicate WellEscaped(t: string) {
    if t == "" then true
    else if t[0] == '\\' then |t| > 1 && Special(t[1]) && WellEscaped(t[2..])
    else !Special(t[0]) && WellEscaped(t[1..])
  }

  /** The well-escaped strings are exactly the results of escaping. */
  lemma {:induction false} WellEscapedIsImage(t: string)
    ensures WellEscaped(t) <==> Escape(Unescape(t)) == t
  {
    if t != "" {
      if t[0] == '\\' && |t| > 1 {
        WellEscapedIsImage(t[2..]);
        var u := Unescape(t);
        assert u[1..] == Unescape(t[2..]);
        assert t == [t[0], t[1]] + t[2..];
        if Special(t[1]) {
          assert Escape(u)[2..] == Escape(u[1..]);
        } else {
          assert Escape(u)[0] == t[1];
        }
      } else {
        WellEscapedIsImage(t[1..]);
        var u := Unescape(t);
        assert u[1..] == Unescape(t[1..]);
        assert t == [t[0]] + t[1..];
        if Special(t[0]) {
          assert Escape(u)[0] == '\\' && |Escape(u)| > 1;
        } else {
          assert Escape(u)[1..] == Escape(u[1..]);
        }
      }
    }
  }

  // ----- quoted literals -----

  /** sqlFormat of the status requests. */
  function Quoted(s: string): string { "'" + s + "'" }

  /** Where MySQL closes a literal whose text starts at position i: a backslash protects the next
      character, and two quotes in a row stand for one. */
  function LiteralEnd(query: string, i: nat): (end: int)
    decreases |query| - i
  {
    if i >= |query| then -1
    else if query[i] == '\\' then LiteralEnd(query, i + 2)
    else if query[i] != '\'' then LiteralEnd(query, i + 1)
    else if i + 1 < |query| && query[i + 1] == '\'' then LiteralEnd(query, i + 2)
    else i
  }

  lemma {:induction false} ScanEscaped(before: string, s: string, after: string)
    ensures LiteralEnd(before + Escape(s) + after, |before|)
         == LiteralEnd(before + Escape(s) + after, |before + Escape(s)|)
    decreases |s|
  {
    if s != "" {
      var head := EscapeChar(s[0]);
      assert before + Escape(s) + after == (before + head) + Escape(s[1..]) + after;
      assert (before + Escape(s) + after)[|before|] == head[0];
      ScanEscaped(before + head, s[1..], after);
    }
  }

  /** However a token or SURL reads, its escaped literal closes at the quote that sqlFormat put
      there, whatever text (not starting with another quote) the query continues with. */
  lemma QuotedClosesAtItsEnd(s: string, tail: string)
    requires tail == "" || tail[0] != '\''
    ensures LiteralEnd(Quoted(Escape(s)) + tail, 1) == |Quoted(Escape(s))| - 1
  {
    var query := "'" + Escape(s) + ("'" + tail);
    assert Quoted(Escape(s)) + tail == query;
    ScanEscaped("'", s, "'" + tail);
    var k := |"'" + Escape(s)|;
    assert query[k] == '\'';
    assert tail != "" ==> query[k + 1] == tail[0];
  }

  // ----- request tokens -----

  predicate HexDigit(c: char) { '0' <= c <= '9' || 'a' <= c <= 'f' || 'A' <= c <= 'F' }

  predicate HyphenAt(i: int) { i == 8 || i == 13 || i == 18 || i == 23 }

  /** A UUID in its textual form, in either case. */
  predicate ValidToken(token: string) {
    |token| == 36
    && forall i :: 0 <= i < 36 ==> if HyphenAt(i) then token[i] == '-' else HexDigit(token[i])
  }

  /** The groups of UUID_REGEXP. */
  predicate TokenGroups(token: string, a: string, b: string, c: string, d: string, e: string) {
    && |a| == 8 && |b| == 4 && |c| == 4 && |d| == 4 && |e| == 12
    && (forall x :: x in a + b + c + d + e ==> x in "0123456789abcdefABCDEF")
    && token == a + "-" + b + "-" + c + "-" + d + "-" + e
  }

  /** The valid tokens are five groups of 8, 4, 4, 4 and 12 hexadecimal digits, joined by hyphens. */
  lemma TokenLanguage(token: string)
    ensures ValidToken(token) <==> exists a, b, c, d, e :: TokenGroups(token, a, b, c, d, e)
  {
    if a, b, c, d, e :| TokenGroups(token, a, b, c, d, e) {
      GroupsAreValid(token, a, b, c, d, e);
    }
    if ValidToken(token) {
      ValidIsGrouped(token);
    }
  }

  lemma HexDigits(x: char)
    ensures HexDigit(x) <==> x in "0123456789abcdefABCDEF"
  {
  }

  lemma GroupsAreValid(token: string, a: string, b: string, c: string, d: string, e: string)
    requires TokenGroups(token, a, b, c, d, e)
    ensures ValidToken(token)
  {
    forall i | 0 <= i < 36 && !HyphenAt(i) ensures HexDigit(token[i]) {
      assert token[i] in a + b + c + d + e;
      HexDigits(token[i]);
    }
  }

  lemma ValidIsGrouped(token: string)
    requires ValidToken(token)
    ensures TokenGroups(token, token[..8], token[9..13], token[14..18], token[19..23], token[24..])
  {
    var digits := token[..8] + token[9..13] + token[14..18] + token[19..23] + token[24..];
    forall x | x in digits ensures x in "0123456789abcdefABCDEF" {
      HexDigits(x);
    }
  }

  /** A valid token passes through escaping unchanged, so the stored and the queried token agree. */
  lemma ValidTokenNeedsNoEscape(token: string)
    requires ValidToken(token)
    ensures Escape(token) == token
  {
    EscapeIdentity(token);
    forall c | c in token ensures !Special(c) {
      var i :| 0 <= i < 36 && token[i] == c;
    }
  }
}
