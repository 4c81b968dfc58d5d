// Splitting a data URL into its media type and payload (`parseDataUrl`,
// services/geminiService.ts). The header's media type is what the regular
// expression `/:(.*?);/` captures; JavaScript's `.` does not match a line
// terminator, so the model scans for the first `;` that no line terminator
// precedes.
module DataUrl {
  import opened Types

  /** The payload of one page as the model request carries it. */
  datatype InlineData = InlineData(data: string, mimeType: string)

  const DefaultMimeType: string := "image/jpeg"

  /** Number of occurrences of `c` in `s`. */
  function Count(s: string, c: char): nat {
    if |s| == 0 then 0 else (if s[0] == c then 1 else 0) + Count(s[1..], c)
  }

  /** Index of the first occurrence of `c` in `s`. */
  function IndexOf(s: string, c: char): (i: nat)
    requires c in s
    ensures i < |s| && s[i] == c && c !in s[..i]
  {
    if s[0] == c then 0 else 1 + IndexOf(s[1..], c)
  }

  /** `String.prototype.split` with a one-character separator: the pieces
      between the separators, so one piece more than there are separators. */
  function Split(s: string, sep: char): (pieces: seq<string>)
    ensures |pieces| == Count(s, sep) + 1
    ensures forall k :: 0 <= k < |pieces| ==> sep !in pieces[k]
  {
    if |s| == 0 then [""]
    else
      var rest := Split(s[1..], sep);
      if s[0] == sep then [""] + rest
      else [[s[0]] + rest[0]] + rest[1..]
  }

  /** The inverse of `Split`: the pieces glued back with the separator. */
  function Join(pieces: seq<string>, sep: char): string
    requires |pieces| >= 1
  {
    if |pieces| == 1 then pieces[0] else pieces[0] + [sep] + Join(pieces[1..], sep)
  }

  /** Splitting loses nothing: joining the pieces gives the string back. */
  lemma {:induction false} SplitJoin(s: string, sep: char)
    ensures Join(Split(s, sep), sep) == s
  {
    if |s| > 0 {
      SplitJoin(s[1..], sep);
      var rest := Split(s[1..], sep);
      if s[0] == sep {
        assert ([""] + rest)[1..] == rest;
      } else {
        var pieces := [[s[0]] + rest[0]] + rest[1..];
        if |rest| > 1 {
          assert pieces[1..] == rest[1..];
        }
        assert s == [s[0]] + s[1..];
      }
    }
  }

  /** A string with exactly one separator splits into the text before it and
      the text after it. */
  lemma {:induction false} SplitAround(h: string, d: string, sep: char)
    requires sep !in h && sep !in d
    ensures Split(h + [sep] + d, sep) == [h, d]
  {
    if |h| == 0 {
      SplitWithout(d, sep);
      assert h + [sep] + d == [sep] + d;
      assert ([sep] + d)[1..] == d;
    } else {
      SplitAround(h[1..], d, sep);
      assert (h + [sep] + d)[1..] == h[1..] + [sep] + d;
      assert [h[0]] + h[1..] == h;
    }
  }

  /** A string without the separator is a single piece. */
  lemma {:induction false} SplitWithout(d: string, sep: char)
    requires sep !in d
    ensures Split(d, sep) == [d]
  {
    if |d| > 0 {
      SplitWithout(d[1..], sep);
      assert [d[0]] + d[1..] == d;
    }
  }

  /** The characters JavaScript's `.` refuses to match. */
  predicate IsLineTerminator(c: char) {
    c == '\n' || c == '\r' || c == '\U{2028}' || c == '\U{2029}'
  }

  /** The lazy `.*?;` that starts at the beginning of `s` stops at `k`: `k`
      is the first `;` and no line terminator comes before it. */
  predicate LazyStopsAt(s: string, k: int) {
    0 <= k < |s| && s[k] == ';' &&
    forall j :: 0 <= j < k ==> s[j] != ';' && !IsLineTerminator(s[j])
  }

  /** Where `.*?;` started at the beginning of `s` stops, if it matches. */
  function SemicolonReach(s: string): (r: Option<nat>)
    ensures r.Some? ==> LazyStopsAt(s, r.value)
    ensures r.None? ==> forall k :: !LazyStopsAt(s, k)
  {
    if |s| == 0 then None
    else if s[0] == ';' then Some(0)
    else if IsLineTerminator(s[0]) then None
    else
      match SemicolonReach(s[1..])
      case None =>
        assert forall k :: LazyStopsAt(s, k) ==> LazyStopsAt(s[1..], k - 1);
        None
      case Some(k) => Some(k + 1)
  }

  /** The regular expression `/:(.*?);/` matches with its `:` at index `i`. */
  predicate MatchStartsAt(h: string, i: int) {
    0 <= i < |h| && h[i] == ':' && SemicolonReach(h[i + 1..]).Some?
  }

  /** The leftmost index at or after `i` where the regular expression matches:
      the position `String.prototype.match` reports. */
  function FirstMatchFrom(h: string, i: nat): (r: Option<nat>)
    requires i <= |h|
    ensures r.Some? ==> i <= r.value && MatchStartsAt(h, r.value)
    ensures r.Some? ==> forall j :: i <= j < r.value ==> !MatchStartsAt(h, j)
    ensures r.None? ==> forall j :: i <= j < |h| ==> !MatchStartsAt(h, j)
    decreases |h| - i
  {
    if i == |h| then None
    else if MatchStartsAt(h, i) then Some(i)
    else FirstMatchFrom(h, i + 1)
  }

  /** The media type of a data-URL header: the captured group of the first
      match, or the default when there is no match or the group is empty. */
  function MimeTypeOf(header: string): string {
    match FirstMatchFrom(header, 0)
    case None => DefaultMimeType
    case Some(i) =>
      var group := header[i + 1..i + 1 + SemicolonReach(header[i + 1..]).value];
      if group == "" then DefaultMimeType else group
  }

  /** `parseDataUrl`: null unless the URL splits on `,` into exactly two
      pieces; otherwise the second piece is the data and the first the header. */
  function ParseDataUrl(url: string): Option<InlineData> {
    var pieces := Split(url, ',');
    if |pieces| != 2 then None
    else Some(InlineData(pieces[1], MimeTypeOf(pieces[0])))
  }

  lemma {:induction false} IndexOfAfter(h: string, c: char, d: string)
    requires c !in h
    ensures c in h + [c] + d && IndexOf(h + [c] + d, c) == |h|
  {
    var s := h + [c] + d;
    assert s[|h|] == c;
    if |h| > 0 {
      IndexOfAfter(h[1..], c, d);
      assert s[1..] == h[1..] + [c] + d;
    }
  }

  /** A data URL parses iff it holds exactly one comma, and then its data is
      the text after that comma and its media type comes from the text
      before it. */
  lemma ParseDataUrlCharacterized(url: string)
    ensures ParseDataUrl(url).Some? <==> Count(url, ',') == 1
    ensures ParseDataUrl(url).Some? ==>
      ',' in url &&
      var i := IndexOf(url, ',');
      ParseDataUrl(url).value == InlineData(url[i + 1..], MimeTypeOf(url[..i]))
  {
    var pieces := Split(url, ',');
    if |pieces| == 2 {
      SplitJoin(url, ',');
      assert pieces[1..] == [pieces[1]];
      assert url == pieces[0] + [','] + pieces[1];
      IndexOfAfter(pieces[0], ',', pieces[1]);
      var i := IndexOf(url, ',');
      assert url[..i] == pieces[0];
      assert url[i + 1..] == pieces[1];
    }
  }

  /** Without a `;` or line terminator in `m`, `.*?;` stops at the `;` that
      follows `m`. */
  lemma {:induction false} SemicolonReachAfter(m: string, rest: string)
    requires forall k :: 0 <= k < |m| ==> m[k] != ';' && !IsLineTerminator(m[k])
    ensures SemicolonReach(m + [';'] + rest) == Some(|m|)
  {
    if |m| > 0 {
      SemicolonReachAfter(m[1..], rest);
      assert (m + [';'] + rest)[1..] == m[1..] + [';'] + rest;
    }
  }

  /** `s` holds no line terminator. */
  predicate NoLineBreaks(s: string) {
    forall k :: 0 <= k < |s| ==> !IsLineTerminator(s[k])
  }

  /** Without line terminators, `.*?;` stops at the first `;`, if any. */
  lemma SemicolonReachPlain(s: string)
    requires NoLineBreaks(s)
    ensures ';' in s ==> SemicolonReach(s) == Some(IndexOf(s, ';'))
    ensures ';' !in s ==> SemicolonReach(s) == None
  {
    if ';' in s {
      var i := IndexOf(s, ';');
      assert LazyStopsAt(s, i);
    }
  }

  /** Without line breaks the regular expression matches at the first `:`
      when a `;` follows it, and nowhere otherwise. */
  lemma FirstMatchPlain(header: string)
    requires NoLineBreaks(header)
    ensures ':' !in header ==> FirstMatchFrom(header, 0).None?
    ensures ':' in header ==>
      var c := IndexOf(header, ':');
      FirstMatchFrom(header, 0) == if ';' in header[c + 1..] then Some(c) else None
  {
    var r := FirstMatchFrom(header, 0);
    if ':' in header {
      var c := IndexOf(header, ':');
      NoMatchBeforeColon(header, c);
      var after := header[c + 1..];
      assert NoLineBreaks(after);
      SemicolonReachPlain(after);
      if ';' !in after {
        forall j | c <= j < |header|
          ensures !MatchStartsAt(header, j)
        {
          NoSemicolonInSuffix(header, c + 1, j + 1);
        }
        assert r.None?;
      } else {
        assert MatchStartsAt(header, c);
        assert r == Some(c);
      }
    }
  }

  lemma NoMatchBeforeColon(header: string, c: nat)
    requires ':' in header && c == IndexOf(header, ':')
    ensures forall j :: 0 <= j < c ==> !MatchStartsAt(header, j)
  {
    forall j | 0 <= j < c ensures header[j] != ':' {
      assert header[j] == header[..c][j];
    }
  }

  lemma NoSemicolonInSuffix(s: string, i: nat, j: nat)
    requires i <= j <= |s| && NoLineBreaks(s) && ';' !in s[i..]
    ensures SemicolonReach(s[j..]).None?
  {
    var t := s[j..];
    forall k | 0 <= k < |t| ensures t[k] != ';' && !IsLineTerminator(t[k]) {
      assert t[k] == s[i..][k + j - i];
    }
  }

  /** For a header without line breaks the media type is the text between
      the first `:` and the next `;`; `image/jpeg` when either is missing or
      that text is empty. */
  lemma MimeTypeWithoutLineBreaks(header: string)
    requires NoLineBreaks(header)
    ensures ':' !in header ==> MimeTypeOf(header) == DefaultMimeType
    ensures ':' in header ==>
      var c := IndexOf(header, ':');
      var after := header[c + 1..];
      if ';' !in after then MimeTypeOf(header) == DefaultMimeType
      else
        var group := after[..IndexOf(after, ';')];
        MimeTypeOf(header) == if group == "" then DefaultMimeType else group
  {
    FirstMatchPlain(header);
    if ':' in header {
      var c := IndexOf(header, ':');
      var after := header[c + 1..];
      assert NoLineBreaks(after);
      SemicolonReachPlain(after);
      if ';' in after {
        var k := IndexOf(after, ';');
        MimeTypeAtMatch(header, c, k);
      }
    }
  }

  /** Once the first match is known, the media type is its captured group,
      or the default when that group is empty. */
  lemma MimeTypeAtMatch(header: string, c: nat, k: nat)
    requires c < |header| && FirstMatchFrom(header, 0) == Some(c)
    requires SemicolonReach(header[c + 1..]) == Some(k)
    ensures k < |header[c + 1..]|
    ensures var group := header[c + 1..][..k];
      MimeTypeOf(header) == if group == "" then DefaultMimeType else group
  {
    assert header[c + 1..c + 1 + k] == header[c + 1..][..k];
  }

  /** When the regular expression matches nowhere in the header, whether for
      lack of a `:` or a `;` or because a line terminator stops every lazy
      match, `match` gives null and the media type is the default. */
  lemma MimeTypeWithoutMatch(header: string)
    requires FirstMatchFrom(header, 0).None?
    ensures MimeTypeOf(header) == DefaultMimeType
  {
  }

  /** A line break between the `:` and the `;` defeats the match, so the
      header `data:\nimage/png;base64` gets the default media type and not
      `image/png`. */
  lemma LineBreakFallsBack()
    ensures MimeTypeOf("data:\nimage/png;base64") == DefaultMimeType
  {
    var h := "data:\nimage/png;base64";
    assert SemicolonReach(h[5..]) == None;
    forall j | 0 <= j < |h|
      ensures !MatchStartsAt(h, j)
    {
      if j != 4 {
        assert h[j] != ':';
      }
    }
    NoMatchAnywhere(h, 0);
  }

  /** No match at or after `i` leaves `FirstMatchFrom` empty. */
  lemma {:induction false} NoMatchAnywhere(h: string, i: nat)
    requires i <= |h|
    requires forall j :: i <= j < |h| ==> !MatchStartsAt(h, j)
    ensures FirstMatchFrom(h, i).None?
    decreases |h| - i
  {
    if i < |h| {
      NoMatchAnywhere(h, i + 1);
    }
  }

  /** The data URL a browser's file reader produces for a payload. */
  function FormatDataUrl(mimeType: string, data: string): string {
    "data:" + mimeType + ";base64," + data
  }

  /** Round trip: the data URL of a payload parses back to that payload and
      its media type. */
  lemma FormatThenParse(mimeType: string, data: string)
    requires mimeType != ""
    requires forall k :: 0 <= k < |mimeType| ==>
      mimeType[k] != ',' && mimeType[k] != ';' && !IsLineTerminator(mimeType[k])
    requires ',' !in data
    ensures ParseDataUrl(FormatDataUrl(mimeType, data)) == Some(InlineData(data, mimeType))
  {
    var header := "data:" + mimeType + ";base64";
    assert FormatDataUrl(mimeType, data) == header + [','] + data;
    assert ',' !in header;
    SplitAround(header, data, ',');
    assert header[5..] == mimeType + [';'] + "base64";
    SemicolonReachAfter(mimeType, "base64");
    assert MatchStartsAt(header, 4);
    var r := FirstMatchFrom(header, 0);
    assert r == Some(4);
    assert header[5..5 + |mimeType|] == mimeType;
  }
}
