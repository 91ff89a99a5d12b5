/** Log lines composed in a buffer of fixed size (src/frontend/srmlogit.cpp). The texts that depend
    on the clock, the thread and the request id come from outside. */
module LogBuffer {
  import opened Sequences
  import opened Wrappers

  const LOGBUFSZ: nat := 1024
  const SUFFIX := " TRUNCATED\n"

  predicate NoNul(text: string) { forall c :: c in text ==> c != '\0' }

  /** The C string at the front of a buffer. */
  function CString(buf: seq<char>): (text: string)
    ensures |text| <= |buf| && (|text| < |buf| ==> buf[|text|] == '\0')
  {
    if buf == [] || buf[0] == '\0' then "" else [buf[0]] + CString(buf[1..])
  }

  function Least(a: nat, b: nat): nat { if a < b then a else b }

  /** snprintf (ISO C, section 7.19.6.5): at most size - 1 characters and a NUL. */
  function Printed(buf: seq<char>, at: nat, size: nat, text: string): seq<char>
    requires at + size <= |buf|
  {
    if size == 0 then buf
    else
      var n := Least(|text|, size - 1);
      buf[..at] + text[..n] + ['\0'] + buf[at + n + 1..]
  }

  method Snprintf(buf: array<char>, at: nat, size: nat, text: string) returns (length: nat)
    requires at + size <= buf.Length
    modifies buf
    ensures length == |text|
    ensures buf[..] == Printed(old(buf[..]), at, size, text)
  {
    if size > 0 {
      var n := Least(|text|, size - 1);
      for i := 0 to n
        invariant buf[..at] == old(buf[..at])
        invariant buf[at..at + i] == text[..i]
        invariant buf[at + i..] == old(buf[at + i..])
      {
        buf[at + i] := text[i];
      }
      buf[at + n] := '\0';
      Pieces(buf[..], at, n, old(buf[..]), text);
    }
    length := |text|;
  }

  lemma Pieces(now: seq<char>, at: nat, n: nat, was: seq<char>, text: string)
    requires n <= |text| && at + n < |now| == |was|
    requires now[..at] == was[..at] && now[at..at + n] == text[..n] && now[at + n] == '\0'
    requires now[at + n + 1..] == was[at + n + 1..]
    ensures now == was[..at] + text[..n] + ['\0'] + was[at + n + 1..]
  {
    assert now == now[..at] + now[at..at + n] + [now[at + n]] + now[at + n + 1..];
  }

  // ----- the state of the buffer -----

  /** The buffer holds the first kept characters of the text written so far and a NUL; if that is not
      the whole text, the buffer is full up to at most one character. */
  predicate Holds(buf: seq<char>, text: string, kept: nat) {
    && |buf| == LOGBUFSZ && kept <= |text| && kept < LOGBUFSZ
    && buf[..kept] == text[..kept] && buf[kept] == '\0'
    && (kept < |text| ==> kept >= LOGBUFSZ - 2)
  }

  /** What is kept after one more piece. */
  function KeptAfter(kept: nat, written: nat, more: nat): nat {
    if kept < written then kept else Least(written + more, LOGBUFSZ - 1)
  }

  lemma AppendHolds(buf: seq<char>, text: string, kept: nat, piece: string)
    requires Holds(buf, text, kept)
    ensures |text| < LOGBUFSZ ==>
      var now := Printed(buf, |text|, LOGBUFSZ - |text|, piece);
      Holds(now, text + piece, KeptAfter(kept, |text|, |piece|))
    ensures |text| >= LOGBUFSZ ==> Holds(buf, text + piece, kept)
  {
    if |text| < LOGBUFSZ {
      var n := Least(|piece|, LOGBUFSZ - |text| - 1);
      var now := Printed(buf, |text|, LOGBUFSZ - |text|, piece);
      if kept == |text| {
        assert now[..kept + n] == text + piece[..n] == (text + piece)[..kept + n];
      } else {
        assert now[..kept] == buf[..kept] == (text + piece)[..kept];
      }
    } else {
      assert (text + piece)[..kept] == text[..kept];
    }
  }

  lemma {:induction false} CStringIs(buf: seq<char>, text: string)
    requires |text| < |buf| && text == buf[..|text|] && buf[|text|] == '\0' && NoNul(text)
    ensures CString(buf) == text
  {
    if text != "" {
      assert buf[0] == text[0] && text[0] in text;
      assert text[1..] == buf[1..][..|text| - 1];
      assert forall c :: c in text[1..] ==> c in text;
      CStringIs(buf[1..], text[1..]);
      assert text == [text[0]] + text[1..];
    }
  }

  /** The line for a prefix and the rest: the whole text if it is shorter than the buffer, otherwise
      its first characters and the suffix. The prefix itself may use one character less than the rest. */
  function Line(prefix: string, rest: string): string {
    var text := prefix + rest;
    if |text| >= LOGBUFSZ then text[..LOGBUFSZ - 12] + SUFFIX
    else if |prefix| == LOGBUFSZ - 1 then prefix[..LOGBUFSZ - 2]
    else text
  }

  /** A text of any length in at most 1023 characters. */
  function Truncated(text: string): string {
    if |text| < LOGBUFSZ then text else text[..LOGBUFSZ - 12] + SUFFIX
  }

  /** Every line fits into the buffer with its NUL, and it is the text as a whole or cut off with the
      suffix, except exactly when the prefix alone is 1023 characters long: its last one is lost. */
  lemma LineIsTruncated(prefix: string, rest: string)
    ensures |Line(prefix, rest)| < LOGBUFSZ
    ensures Line(prefix, rest) == Truncated(prefix + rest) <==> !(|prefix| == LOGBUFSZ - 1 && rest == "")
    ensures |prefix + rest| >= 1024 ==> Line(prefix, rest) == (prefix + rest)[..1012] + " TRUNCATED\n"
  {
    if |prefix| == LOGBUFSZ - 1 && rest == "" {
      assert |Line(prefix, rest)| == LOGBUFSZ - 2;
    }
  }

  /** A line that consists of a prefix of 1023 characters loses one of them. */
  lemma LastCharacterLost()
    ensures var prefix := seq(LOGBUFSZ - 1, _ => 'x');
      Line(prefix, "") == prefix[..LOGBUFSZ - 2] && Truncated(prefix + "") == prefix
  {
    var prefix := seq(LOGBUFSZ - 1, _ => 'x');
    assert prefix + "" == prefix;
  }

  /** What is kept after the prefix and the rest. */
  function Kept(prefix: string, rest: string): nat {
    KeptAfter(Least(|prefix|, LOGBUFSZ - 2), |prefix|, |rest|)
  }

  lemma Finished(buf: seq<char>, prefix: string, rest: string, kept: nat)
    requires Holds(buf, prefix + rest, kept) && NoNul(prefix + rest)
    requires |prefix + rest| < LOGBUFSZ ==> kept == Kept(prefix, rest)
    ensures |prefix + rest| >= LOGBUFSZ ==>
      CString(Printed(buf, LOGBUFSZ - 12, 12, SUFFIX)) == Line(prefix, rest)
    ensures |prefix + rest| < LOGBUFSZ ==> CString(buf) == Line(prefix, rest)
  {
    var text := prefix + rest;
    var line := Line(prefix, rest);
    if |text| >= LOGBUFSZ {
      var m := LOGBUFSZ - 12;
      var now := Printed(buf, m, 12, SUFFIX);
      assert text[..m] == text[..kept][..m] == buf[..m];
      assert now[..|line|] == line && now[|line|] == '\0';
      assert NoNul(line) by {
        assert NoNul(SUFFIX) && forall c :: c in text[..m] ==> c in text;
      }
      CStringIs(now, line);
    } else {
      assert line == text[..kept];
      assert forall c :: c in line ==> c in text;
      CStringIs(buf, line);
    }
  }

  /** The buffer after the prefix and the rest, and the number that the functions keep of the
      characters written. */
  ghost predicate Composed(buf: seq<char>, written: nat, prefix: string, rest: string) {
    exists kept ::
      && Holds(buf, prefix + rest, kept)
      && if |prefix + rest| < LOGBUFSZ
         then written == |prefix + rest| && kept == Kept(prefix, rest) else written >= LOGBUFSZ
  }

  lemma PrefixComposed(buf: seq<char>, prefix: string)
    requires |buf| == LOGBUFSZ
    ensures Composed(Printed(buf, 0, LOGBUFSZ - 1, prefix), |prefix|, prefix, "")
  {
    assert prefix + "" == prefix;
    assert Holds(Printed(buf, 0, LOGBUFSZ - 1, prefix), prefix + "", Least(|prefix|, LOGBUFSZ - 2));
  }

  lemma AppendComposed(buf: seq<char>, written: nat, prefix: string, rest: string, piece: string)
    requires Composed(buf, written, prefix, rest)
    ensures |buf| == LOGBUFSZ
    ensures written < LOGBUFSZ ==>
      Composed(Printed(buf, written, LOGBUFSZ - written, piece), written + |piece|, prefix, rest + piece)
    ensures written >= LOGBUFSZ ==> Composed(buf, written, prefix, rest + piece)
  {
    var text := prefix + rest;
    var kept :| Holds(buf, text, kept)
      && if |text| < LOGBUFSZ then written == |text| && kept == Kept(prefix, rest) else written >= LOGBUFSZ;
    assert prefix + (rest + piece) == text + piece;
    AppendHolds(buf, text, kept, piece);
    hide Holds;
    if written < LOGBUFSZ {
      assert Holds(Printed(buf, written, LOGBUFSZ - written, piece), prefix + (rest + piece),
                   KeptAfter(kept, written, |piece|));
    } else {
      assert Holds(buf, prefix + (rest + piece), kept);
    }
  }

  /** What fwrite is given. */
  lemma ComposedLine(buf: seq<char>, written: nat, prefix: string, rest: string)
    requires Composed(buf, written, prefix, rest) && NoNul(prefix + rest)
    ensures |buf| == LOGBUFSZ
    ensures CString(if written >= LOGBUFSZ then Printed(buf, LOGBUFSZ - 12, 12, SUFFIX) else buf) == Line(prefix, rest)
  {
    var text := prefix + rest;
    var kept :| Holds(buf, text, kept)
      && if |text| < LOGBUFSZ then written == |text| && kept == Kept(prefix, rest) else written >= LOGBUFSZ;
    Finished(buf, prefix, rest, kept);
  }

  // ----- the log -----

  /** The decimal digits of a number. */
  function Decimal(n: nat): string {
    var digit := [('0' as int + n % 10) as char];
    if n < 10 then digit else Decimal(n / 10) + digit
  }

  function ValueOf(digits: string): int {
    if digits == "" then 0
    else 10 * ValueOf(digits[..|digits| - 1]) + (digits[|digits| - 1] as int - '0' as int)
  }

  /** Read as a decimal number, the digits give the number back; and there are no leading zeros. */
  lemma {:induction false} DecimalReadsBack(n: nat)
    ensures ValueOf(Decimal(n)) == n
    ensures Decimal(n) != "" && forall c :: c in Decimal(n) ==> '0' <= c <= '9'
    ensures Decimal(n)[0] == '0' ==> n == 0
  {
    var digit := [('0' as int + n % 10) as char];
    if n < 10 {
      assert digit[..0] == "";
    } else {
      DecimalReadsBack(n / 10);
      ConcatParts(Decimal(n / 10), digit);
      assert Decimal(n)[..|Decimal(n)| - 1] == Decimal(n / 10);
    }
  }

  class Log {
    var level: int
    var file: string

    /** logPrefix: leaves one character of the buffer unused. */
    static method LogPrefix(buf: array<char>, prefix: string) returns (written: nat)
      requires buf.Length == LOGBUFSZ
      modifies buf
      ensures Composed(buf[..], written, prefix, "")
    {
      PrefixComposed(buf[..], prefix);
      written := Snprintf(buf, 0, LOGBUFSZ - 1, prefix);
    }

    /** One more piece, if there is room. */
    static method Append(buf: array<char>, written: nat, piece: string, ghost prefix: string, ghost rest: string)
      returns (now: nat)
      requires buf.Length == LOGBUFSZ && Composed(buf[..], written, prefix, rest)
      modifies buf
      ensures Composed(buf[..], now, prefix, rest + piece)
    {
      AppendComposed(buf[..], written, prefix, rest, piece);
      now := written;
      if written < LOGBUFSZ {
        var more := Snprintf(buf, written, LOGBUFSZ - written, piece);
        now := now + more;
      }
    }

    /** The end of every logging function: the suffix if the text was too long, and fwrite. */
    method Write(buf: array<char>, written: nat, ghost prefix: string, ghost rest: string)
      requires buf.Length == LOGBUFSZ && Composed(buf[..], written, prefix, rest) && NoNul(prefix + rest)
      modifies this`file, buf
      ensures file == old(file) + Line(prefix, rest)
    {
      ComposedLine(buf[..], written, prefix, rest);
      LineIsTruncated(prefix, rest);
      if written >= LOGBUFSZ {
        var n := Snprintf(buf, LOGBUFSZ - 12, 12, SUFFIX);
      }
      var length := Strlen(buf);
      file := file + buf[..length];
    }

    static method Strlen(buf: array<char>) returns (n: nat)
      requires |CString(buf[..])| < buf.Length
      ensures n < buf.Length && buf[..n] == CString(buf[..])
    {
      n := 0;
      while buf[n] != '\0'
        invariant n < buf.Length && (forall i :: 0 <= i < n ==> buf[i] != '\0')
        decreases buf.Length - n
      {
        n := n + 1;
      }
      CStringIs(buf[..], buf[..n]);
    }

    /** srmlogit. */
    method Srmlogit(messageLevel: int, prefix: string, message: string)
      requires NoNul(prefix + message)
      modifies this`file
      ensures file == if messageLevel > level then old(file) else old(file) + Line(prefix, message)
    {
      if messageLevel > level {
        return;
      }
      hide Composed, Line;
      var buf := new char[LOGBUFSZ];
      var written := LogPrefix(buf, prefix);
      written := Append(buf, written, message, prefix, "");
      assert "" + message == message;
      Write(buf, written, prefix, message);
    }

    /** loggingError. */
    method LoggingError(prefix: string, requestName: Option<string>)
      requires NoNul(prefix) && (requestName.Some? ==> NoNul(requestName.value))
      modifies this`file
      ensures file == old(file) + Line(prefix, NullArguments(requestName))
    {
      hide Composed, Line;
      var buf := new char[LOGBUFSZ];
      var message := NullArguments(requestName);
      var written := LogPrefix(buf, prefix);
      written := Append(buf, written, message, prefix, "");
      assert "" + message == message;
      Write(buf, written, prefix, message);
    }

    /** srmLogRequestWithSurls: three pieces, each written only if there is room. The two prefixes are
        those of an error and of an info line. */
    method LogRequestWithSurls(errorPrefix: string, prefix: string, requestName: Option<string>, ip: Option<string>,
                               dn: Option<string>, surls: Option<string>, surlsNum: int)
      returns (code: int)
      requires NoNul(errorPrefix) && NoNul(prefix)
      requires forall text :: text in [requestName, ip, dn, surls] && text.Some? ==> NoNul(text.value)
      modifies this`file
      ensures code == if requestName.None? || ip.None? || dn.None? || surls.None? then 1 else 0
      ensures file == old(file) +
        if code == 1 then Line(errorPrefix, NullArguments(requestName))
        else Line(prefix, RequestText(requestName.value, ip.value, dn.value) + SurlsText(surls.value, surlsNum))
      ensures code == 0 && surlsNum > 0 ==>
        file == old(file) + Line(prefix,
          "Request '" + requestName.value + "' from Client IP='" + ip.value + "' Client DN='" + dn.value + "'"
          + (" # Requested '" + Decimal(surlsNum) + "' SURL(s): '" + surls.value + "'\n"))
      ensures code == 0 && surlsNum <= 0 ==>
        file == old(file) + Line(prefix,
          "Request '" + requestName.value + "' from Client IP='" + ip.value + "' Client DN='" + dn.value + "'" + "\n")
    {
      if requestName.None? || ip.None? || dn.None? || surls.None? {
        LoggingError(errorPrefix, requestName);
        return 1;
      }
      hide Composed, Line;
      var buf := new char[LOGBUFSZ];
      var request, list := RequestText(requestName.value, ip.value, dn.value), SurlsText(surls.value, surlsNum);
      var written := LogPrefix(buf, prefix);
      written := Append(buf, written, request, prefix, "");
      assert "" + request == request;
      written := Append(buf, written, list, prefix, request);
      TextsHaveNoNul(requestName.value, ip.value, dn.value, surls.value, surlsNum);
      Write(buf, written, prefix, request + list);
      code := 0;
    }
  }

  lemma TextsHaveNoNul(requestName: string, ip: string, dn: string, surls: string, surlsNum: int)
    requires NoNul(requestName) && NoNul(ip) && NoNul(dn) && NoNul(surls)
    ensures NoNul(RequestText(requestName, ip, dn)) && NoNul(SurlsText(surls, surlsNum))
  {
    if surlsNum > 0 {
      DecimalHasNoNul(surlsNum);
    }
  }

  lemma DecimalHasNoNul(n: nat)
    ensures NoNul(Decimal(n))
  {
  }

  function NullArguments(requestName: Option<string>): string {
    if requestName.Some?
    then "Unable to log message from function " + requestName.value + ", null arguments\n"
    else "Unable to log message, null arguments\n"
  }

  function RequestText(requestName: string, ip: string, dn: string): string {
    "Request '" + requestName + "' from Client IP='" + ip + "' Client DN='" + dn + "'"
  }

  function SurlsText(surls: string, surlsNum: int): string {
    if surlsNum > 0 then " # Requested '" + Decimal(surlsNum) + "' SURL(s): '" + surls + "'\n" else "\n"
  }
}
