/** Lists joined into one string: the SURL list of the request log (src/frontend/file_request.hpp)
    and the FQANs in the proxy column (src/frontend/Credentials.cpp). */
module JoinedLists {
  import opened Sequences
  import opened SqlString
  import SurlNormalizer

  function Join(items: seq<string>, sep: char): string {
    if items == [] then ""
    else if |items| == 1 then items[0]
    else items[0] + [sep] + Join(items[1..], sep)
  }

  /** The pieces between separators; always at least one, and none holds a separator. */
  function Split(s: string, sep: char): (pieces: seq<string>)
    ensures pieces != [] && forall piece :: piece in pieces ==> sep !in piece
  {
    if s == "" then [""]
    else
      var rest := Split(s[1..], sep);
      if s[0] == sep then [""] + rest else [[s[0]] + rest[0]] + rest[1..]
  }

  lemma {:induction false} JoinLast(items: seq<string>, last: string, sep: char)
    ensures Join(items + [last], sep) == if items == [] then last else Join(items, sep) + [sep] + last
  {
    if |items| == 1 {
      assert (items + [last])[1..] == [last];
    } else if items != [] {
      assert (items + [last])[1..] == items[1..] + [last];
      JoinLast(items[1..], last, sep);
    }
  }

  lemma {:induction false} SplitHead(piece: string, rest: string, sep: char)
    requires sep !in piece
    ensures Split(piece, sep) == [piece]
    ensures Split(piece + [sep] + rest, sep) == [piece] + Split(rest, sep)
  {
    if piece == "" {
      assert (piece + [sep] + rest)[1..] == rest;
    } else {
      assert (piece + [sep] + rest)[1..] == piece[1..] + [sep] + rest;
      SplitHead(piece[1..], rest, sep);
      assert piece == [piece[0]] + piece[1..];
    }
  }

  lemma {:induction false} SplitOfJoin(items: seq<string>, sep: char)
    requires items != [] && forall item :: item in items ==> sep !in item
    ensures Split(Join(items, sep), sep) == items
  {
    if |items| == 1 {
      SplitHead(items[0], "", sep);
    } else {
      SplitOfJoin(items[1..], sep);
      SplitHead(items[0], Join(items[1..], sep), sep);
    }
  }

  /** Splitting undoes joining exactly for the non-empty lists in which no item holds the separator. */
  lemma SplitJoin(items: seq<string>, sep: char)
    ensures Split(Join(items, sep), sep) == items
       <==> items != [] && forall item :: item in items ==> sep !in item
  {
    if items != [] && forall item :: item in items ==> sep !in item {
      SplitOfJoin(items, sep);
    }
  }

  /** getSurlsList. */
  method SurlsList(surls: seq<string>) returns (result: string)
    ensures result == Join(surls, ' ')
  {
    result := "";
    var first := true;
    for i := 0 to |surls|
      invariant first <==> i == 0
      invariant result == Join(surls[..i], ' ')
    {
      if first {
        first := false;
      } else {
        result := result + " ";
      }
      result := result + surls[i];
      JoinLast(surls[..i], surls[i], ' ');
      assert surls[..i + 1] == surls[..i] + [surls[i]];
    }
    assert surls[..|surls|] == surls;
  }

  lemma {:induction false} EscapeAddsNoSpace(s: string)
    requires ' ' !in s
    ensures ' ' !in Escape(s)
  {
    if s != "" {
      EscapeAddsNoSpace(s[1..]);
    }
  }

  /** The SURLs of a request as Surl keeps them: normalised, then escaped. */
  predicate Kept(surls: seq<string>, kept: seq<string>) {
    && |kept| == |surls|
    && forall i :: 0 <= i < |surls| ==>
         && SurlNormalizer.Normalize(surls[i]).Success?
         && kept[i] == Escape(SurlNormalizer.Normalize(surls[i]).value)
  }

  /** The logged list of SURLs splits at the spaces into exactly the SURLs of the request. */
  lemma SurlsListComesBack(surls: seq<string>, kept: seq<string>)
    requires surls != [] && Kept(surls, kept)
    ensures Split(Join(kept, ' '), ' ') == kept && |Split(Join(kept, ' '), ' ')| == |surls|
  {
    forall item | item in kept ensures ' ' !in item {
      var i :| 0 <= i < |kept| && kept[i] == item;
      var normal := SurlNormalizer.Normalize(surls[i]).value;
      SurlNormalizer.NormalizedIsCanonical(surls[i]);
      assert forall c :: c in normal ==> !SurlNormalizer.Space(c);
      EscapeAddsNoSpace(normal);
    }
    SplitJoin(kept, ' ');
  }

  function EscapeAll(items: seq<string>): (escaped: seq<string>)
    ensures |escaped| == |items| && forall i :: 0 <= i < |items| ==> escaped[i] == Escape(items[i])
  {
    if items == [] then [] else [Escape(items[0])] + EscapeAll(items[1..])
  }

  function Terminated(items: seq<string>, sep: char): string {
    if items == [] then "" else items[0] + [sep] + Terminated(items[1..], sep)
  }

  lemma {:induction false} TerminatedLast(items: seq<string>, last: string, sep: char)
    ensures Terminated(items + [last], sep) == Terminated(items, sep) + last + [sep]
  {
    if items == [] {
      assert items + [last] == [last];
    } else {
      assert (items + [last])[1..] == items[1..] + [last];
      TerminatedLast(items[1..], last, sep);
    }
  }

  lemma {:induction false} TerminatedIsJoin(items: seq<string>, sep: char)
    requires items != []
    ensures Terminated(items, sep) == Join(items, sep) + [sep]
  {
    if |items| > 1 {
      TerminatedIsJoin(items[1..], sep);
    } else {
      assert items[1..] == [];
    }
  }

  /** getFQANsOneString: the stored FQANs are escaped already; each is appended with a '#', the
      last '#' is erased, and the whole is made a sql_string, that is, escaped again. */
  method FqansOneString(fqans: seq<string>) returns (result: string)
    ensures result == Escape(Join(EscapeAll(fqans), '#'))
  {
    var stored := EscapeAll(fqans);
    var joined := "";
    for i := 0 to |stored|
      invariant joined == Terminated(stored[..i], '#')
    {
      joined := joined + stored[i];
      joined := joined + "#";
      TerminatedLast(stored[..i], stored[i], '#');
      assert stored[..i + 1] == stored[..i] + [stored[i]];
    }
    assert stored[..|stored|] == stored;
    if |joined| > 0 {
      TerminatedIsJoin(stored, '#');
      joined := joined[..|joined| - 1];
    }
    result := EscapeSql(joined);
  }

  lemma {:induction false} UnescapeJoined(items: seq<string>, sep: char)
    requires !Special(sep)
    ensures Unescape(Join(EscapeAll(items), sep)) == Join(items, sep)
  {
    var escaped := EscapeAll(items);
    if |items| == 1 {
      EscapeRoundTrip(items[0]);
    } else if items != [] {
      var rest := Join(escaped[1..], sep);
      UnescapeJoined(items[1..], sep);
      assert escaped[1..] == EscapeAll(items[1..]);
      UnescapeEscape(items[0], [sep] + rest);
      ConcatAssociative(Escape(items[0]), [sep], rest);
      ConcatParts([sep], rest);
      assert Unescape([sep] + rest) == [sep] + Unescape(rest);
      ConcatAssociative(items[0], [sep], Join(items[1..], sep));
    }
  }

  /** The FQANs come back from the stored column by unescaping twice and splitting at '#', exactly
      when there is at least one and none holds a '#'. */
  lemma FqansComeBack(fqans: seq<string>)
    ensures Split(Unescape(Unescape(Escape(Join(EscapeAll(fqans), '#')))), '#') == fqans
       <==> fqans != [] && forall fqan :: fqan in fqans ==> '#' !in fqan
  {
    EscapeRoundTrip(Join(EscapeAll(fqans), '#'));
    UnescapeJoined(fqans, '#');
    SplitJoin(fqans, '#');
  }
}
