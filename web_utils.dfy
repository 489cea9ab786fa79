/**
 * Web helpers: the request-parameter parser for the query part of a URL
 * (section 3.4 of RFC 3986), the `Content-Disposition` file name extractor
 * (a simplified form of section 4.2 of RFC 7578) and the URL-decoding
 * fallback. The percent-decoder itself is a parameter: `None` stands for the
 * exception it throws on malformed input.
 */
module WebUtils {
  import opened Wrappers
  import opened Strings

  /** `urlDecode`: the decoded text, or the input itself when decoding fails */
  function UrlDecode(value: string, decode: string -> Option<string>): (r: string)
    ensures decode(value).None? ==> r == value
    ensures decode(value).Some? ==> r == decode(value).value
  {
    match decode(value)
    case None => value
    case Some(decoded) => decoded
  }

  /** `c in s` is `s.contains(String.valueOf(c))`. */
  lemma CharContains(s: string, c: char)
    ensures c in s <==> Contains(s, [c])
  {
    if c in s {
      var j :| 0 <= j < |s| && s[j] == c;
      assert s[j..j + 1] == [c];
      assert OccursAt(s, [c], j);
    }
    if Contains(s, [c]) {
      var i :| 0 <= i <= |s| && OccursAt(s, [c], i);
      assert s[i] == s[i..i + 1][0];
    }
  }

  // ---------------------------------------------------------------------------------------------
  // parseParameterMap
  // ---------------------------------------------------------------------------------------------

  /**
   * The text the parser splits on '&': everything after the first '?' (the
   * whole string when there is none); nothing when the URL or that text is
   * null or blank.
   */
  function QueryText(url: Option<string>): (r: Option<string>)
    ensures r.Some? ==> !IsBlank(r.value)
  {
    if url.None? || IsBlank(url.value) then None
    else
      var index := IndexOf(url.value, "?");
      var query := if index > -1 then url.value[index + 1..] else url.value;
      if IsBlank(query) then None else Some(query)
  }

  /** The `key=value` segments of the query, as Java's `split("&")` yields them */
  function Segments(url: Option<string>): seq<string> {
    match QueryText(url)
    case None => []
    case Some(query) => JavaSplit(query, '&')
  }

  /** A segment split at its first '=' into decoded key and value; without '=' the value is "". */
  function ParsePair(kv: string, decode: string -> Option<string>): (string, string) {
    var x := IndexOf(kv, "=");
    if x == -1 then (UrlDecode(kv, decode), "")
    else (UrlDecode(kv[..x], decode), UrlDecode(kv[x + 1..], decode))
  }

  /** The keys the segments define */
  function KeysOf(segments: seq<string>, decode: string -> Option<string>): set<string> {
    set i | 0 <= i < |segments| :: ParsePair(segments[i], decode).0
  }

  /** The values given to `key`, in order of appearance */
  function ValuesFor(segments: seq<string>, key: string, decode: string -> Option<string>): seq<string>
    decreases |segments|
  {
    if |segments| == 0 then []
    else
      var earlier := ValuesFor(segments[..|segments| - 1], key, decode);
      var pair := ParsePair(segments[|segments| - 1], decode);
      if pair.0 == key then earlier + [pair.1] else earlier
  }

  /** A key no segment defines has no values. */
  lemma {:induction false} ValuesForAbsent(segments: seq<string>, key: string, decode: string -> Option<string>)
    requires key !in KeysOf(segments, decode)
    ensures ValuesFor(segments, key, decode) == []
    decreases |segments|
  {
    if |segments| != 0 {
      var prefix := segments[..|segments| - 1];
      assert key != ParsePair(segments[|segments| - 1], decode).0;
      assert KeysOf(prefix, decode) <= KeysOf(segments, decode) by {
        forall k | k in KeysOf(prefix, decode) ensures k in KeysOf(segments, decode) {
          var i :| 0 <= i < |prefix| && ParsePair(prefix[i], decode).0 == k;
          assert prefix[i] == segments[i];
        }
      }
      ValuesForAbsent(prefix, key, decode);
    }
  }

  /** One more segment adds its key, and its value at the end of that key's values. */
  lemma ParseStep(segments: seq<string>, i: nat, decode: string -> Option<string>)
    requires i < |segments|
    ensures var pair := ParsePair(segments[i], decode);
      && KeysOf(segments[..i + 1], decode) == KeysOf(segments[..i], decode) + {pair.0}
      && ValuesFor(segments[..i + 1], pair.0, decode) == ValuesFor(segments[..i], pair.0, decode) + [pair.1]
      && forall k :: k != pair.0 ==> ValuesFor(segments[..i + 1], k, decode) == ValuesFor(segments[..i], k, decode)
  {
    assert segments[..i + 1][..i] == segments[..i];
    assert forall j :: 0 <= j < i ==> segments[..i + 1][j] == segments[..i][j];
  }

  /** `params` maps exactly the keys of `segments`, each to its values in order of appearance. */
  ghost predicate Describes(params: map<string, seq<string>>, segments: seq<string>, decode: string -> Option<string>) {
    && params.Keys == KeysOf(segments, decode)
    && forall k :: k in params ==> params[k] == ValuesFor(segments, k, decode) && |params[k]| > 0
  }

  /** Adding the value of one more segment to its key's list keeps the map describing the segments read. */
  lemma DescribesStep(params: map<string, seq<string>>, segments: seq<string>, i: nat, decode: string -> Option<string>)
    requires i < |segments| && Describes(params, segments[..i], decode)
    ensures var (key, value) := ParsePair(segments[i], decode);
      Describes(params[key := (if key in params then params[key] else []) + [value]], segments[..i + 1], decode)
  {
    var (key, value) := ParsePair(segments[i], decode);
    ParseStep(segments, i, decode);
    if key !in params {
      ValuesForAbsent(segments[..i], key, decode);
    }
  }

  /** `parseParameterMap`: every key mapped to its values in order of appearance */
  method ParseParameterMap(url: Option<string>, decode: string -> Option<string>) returns (params: map<string, seq<string>>)
    ensures Describes(params, Segments(url), decode)
  {
    params := map[];
    var query := QueryText(url);
    if query.Some? {
      var segments := JavaSplit(query.value, '&');
      for i := 0 to |segments|
        invariant Describes(params, segments[..i], decode)
      {
        DescribesStep(params, segments, i, decode);
        var (key, value) := ParsePair(segments[i], decode);
        params := params[key := (if key in params then params[key] else []) + [value]];
      }
      assert segments[..|segments|] == segments;
    }
  }

  /** A blank or missing URL, or one with nothing after its '?', yields no parameters. */
  lemma BlankUrlNoParameters(url: Option<string>, decode: string -> Option<string>)
    requires url.None? || IsBlank(url.value) || (Contains(url.value, "?") && IsBlank(url.value[IndexOf(url.value, "?") + 1..]))
    ensures Segments(url) == [] && KeysOf(Segments(url), decode) == {}
  {
  }

  /** Only the text after the first '?' is parsed. */
  lemma OnlyAfterQuestionMark(url: string)
    requires Contains(url, "?")
    ensures var query := url[IndexOf(url, "?") + 1..];
      Segments(Some(url)) == if IsBlank(query) then [] else JavaSplit(query, '&')
  {
  }

  /** `IndexOf` on a single character: the first position holding it */
  lemma FirstCharIndex(s: string, c: char, i: nat)
    requires i < |s| && s[i] == c && c !in s[..i]
    ensures IndexOf(s, [c]) == i
  {
    assert s[i..i + 1] == [c];
    assert OccursAt(s, [c], i);
    forall j | 0 <= j < i ensures !OccursAt(s, [c], j) {
      assert s[j] == s[..i][j];
      OccursCharAt(s, c, j);
    }
  }

  lemma OccursCharAt(s: string, c: char, i: nat)
    requires i < |s|
    ensures OccursAt(s, [c], i) <==> s[i] == c
  {
    if s[i] == c {
      assert s[i..i + 1] == [c];
    }
    if OccursAt(s, [c], i) {
      assert s[i] == s[i..i + 1][0];
    }
  }

  /** A segment is split at its first '=' only: "k=a=b" has key "k" and value "a=b". */
  lemma SplitAtFirstEquals()
    ensures ParsePair("k=a=b", s => Some(s)) == ("k", "a=b")
  {
    assert "k=a=b"[..1] == "k";
    FirstCharIndex("k=a=b", '=', 1);
    assert "k=a=b"[..1] == "k" && "k=a=b"[2..] == "a=b";
  }

  /** A segment without '=' gives its decoded text the value "". */
  lemma NoEqualsEmptyValue(kv: string, decode: string -> Option<string>)
    requires '=' !in kv
    ensures ParsePair(kv, decode) == (UrlDecode(kv, decode), "")
  {
    CharContains(kv, '=');
  }

  /** Repeated keys accumulate: "a=1&a=2" gives `a` the values "1", "2". */
  lemma RepeatedKeysAccumulate()
    ensures ValuesFor(["a=1", "a=2"], "a", s => Some(s)) == ["1", "2"]
  {
    var decode: string -> Option<string> := s => Some(s);
    assert "a=1"[..1] == "a" && "a=1"[2..] == "1";
    assert "a=2"[..1] == "a" && "a=2"[2..] == "2";
    FirstCharIndex("a=1", '=', 1);
    FirstCharIndex("a=2", '=', 1);
    assert ["a=1", "a=2"][..1] == ["a=1"] && ["a=1"][..0] == [];
    assert ParsePair("a=1", decode) == ("a", "1");
    assert ParsePair("a=2", decode) == ("a", "2");
  }

  // ---------------------------------------------------------------------------------------------
  // getFileName
  // ---------------------------------------------------------------------------------------------

  /** The text up to the first `c`, or all of it */
  function FirstPiece(s: string, c: char): string {
    var y := IndexOf(s, [c]);
    if y == -1 then s else s[..y]
  }

  /** The second piece of a split is the text between the first and the second separator. */
  lemma SplitSecond(s: string, c: char)
    requires IndexOf(s, [c]) != -1
    ensures |SplitAll(s, c)| >= 2
    ensures SplitAll(s, c)[1] == FirstPiece(s[IndexOf(s, [c]) + 1..], c)
    ensures SplitAll(s, c)[1..] == SplitAll(s[IndexOf(s, [c]) + 1..], c)
  {
    SplitStep(s, c, IndexOf(s, [c]));
  }

  predicate AllEmpty(parts: seq<string>) {
    forall i :: 0 <= i < |parts| ==> parts[i] == []
  }

  predicate AllSep(s: string, c: char) {
    forall j :: 0 <= j < |s| ==> s[j] == c
  }

  lemma AllSepAround(s: string, c: char, x: nat)
    requires x < |s| && s[x] == c
    ensures AllSep(s, c) <==> AllSep(s[..x], c) && AllSep(s[x + 1..], c)
  {
    if AllSep(s[..x], c) && AllSep(s[x + 1..], c) {
      forall j | 0 <= j < |s| ensures s[j] == c {
        if j < x { assert s[j] == s[..x][j]; }
        else if j > x { assert s[j] == s[x + 1..][j - x - 1]; }
      }
    }
  }

  lemma AllEmptyCons(a: string, rest: seq<string>)
    ensures AllEmpty([a] + rest) <==> a == [] && AllEmpty(rest)
  {
    if a == [] && AllEmpty(rest) {
      forall i | 0 <= i < |[a] + rest| ensures ([a] + rest)[i] == [] {
        if i > 0 { assert ([a] + rest)[i] == rest[i - 1]; }
      }
    }
    if AllEmpty([a] + rest) {
      assert ([a] + rest)[0] == a;
      forall i | 0 <= i < |rest| ensures rest[i] == [] {
        assert ([a] + rest)[i + 1] == rest[i];
      }
    }
  }

  /** Every piece of a split is empty exactly when the text holds nothing but separators. */
  lemma {:induction false} AllPiecesEmpty(s: string, c: char)
    ensures AllEmpty(SplitAll(s, c)) <==> AllSep(s, c)
    decreases |s|
  {
    var x := IndexOf(s, [c]);
    if x == -1 {
      assert SplitAll(s, c) == [s];
      CharContains(s, c);
      assert c !in s;
      if |s| > 0 {
        assert s[0] in s && s[0] != c;
        assert !AllSep(s, c);
        assert [s][0] != [];
      }
    } else {
      SplitStep(s, c, x);
      AllPiecesEmpty(s[x + 1..], c);
      AllSepAround(s, c, x);
      AllEmptyCons(s[..x], SplitAll(s[x + 1..], c));
      if x > 0 {
        OccursCharAt(s, c, 0);
        assert s[..x][0] == s[0];
      }
    }
  }

  /** Java's `split` keeps a second piece exactly when some piece after the first is not empty. */
  lemma DropTrailingSecond(parts: seq<string>)
    ensures |DropTrailingEmpty(parts)| >= 2 <==> exists j :: 1 <= j < |parts| && parts[j] != []
  {
    var r := DropTrailingEmpty(parts);
    if |r| >= 2 {
      assert parts[|r| - 1] == r[|r| - 1];
    }
  }

  /** Whether a `;`-segment names the file */
  predicate IsFilenameSegment(segment: string) {
    StartsWith(Trim(segment), "filename")
  }

  /**
   * The file name in a segment: the second piece of `split("=")`, trimmed and
   * stripped of '"'; an `ArrayIndexOutOfBoundsException` when there is none.
   */
  function FileNameIn(segment: string): (r: Result<string, string>)
  {
    var name := JavaSplit(segment, '=');
    if |name| < 2 then Err("ArrayIndexOutOfBoundsException")
    else Ok(RemoveChar(Trim(name[1]), '"'))
  }

  /**
   * The file name is the text between the first and the second '=' (trimmed,
   * '"' removed); it fails when there is no '=' or only '=' follow the first.
   */
  lemma FileNameBetweenEquals(segment: string)
    ensures var x := IndexOf(segment, "=");
      && (x == -1 ==> FileNameIn(segment).Err?)
      && (x != -1 ==>
            var rest := segment[x + 1..];
            && (FileNameIn(segment).Err? <==> AllSep(rest, '='))
            && (FileNameIn(segment).Ok? ==> FileNameIn(segment).value == RemoveChar(Trim(FirstPiece(rest, '=')), '"')))
  {
    var x := IndexOf(segment, "=");
    CharContains(segment, '=');
    if x != -1 {
      var rest := segment[x + 1..];
      var parts := SplitAll(segment, '=');
      SplitSecond(segment, '=');
      AllPiecesEmpty(rest, '=');
      DropTrailingSecond(parts);
      assert (exists j :: 1 <= j < |parts| && parts[j] != []) <==> !AllEmpty(SplitAll(rest, '=')) by {
        assert forall i :: 0 <= i < |SplitAll(rest, '=')| ==> SplitAll(rest, '=')[i] == parts[i + 1];
        assert forall j :: 1 <= j < |parts| ==> parts[j] == SplitAll(rest, '=')[j - 1];
      }
    }
  }

  /** The index of the first segment naming the file, or -1 */
  function FilenameIndex(segments: seq<string>): (r: int)
    ensures -1 <= r < |segments|
    ensures r == -1 ==> forall i :: 0 <= i < |segments| ==> !IsFilenameSegment(segments[i])
    ensures r != -1 ==> IsFilenameSegment(segments[r]) && forall i :: 0 <= i < r ==> !IsFilenameSegment(segments[i])
  {
    if |segments| == 0 then -1
    else if IsFilenameSegment(segments[0]) then 0
    else
      var i := FilenameIndex(segments[1..]);
      if i == -1 then -1 else i + 1
  }

  /** `getFileName` over the `Content-Disposition` header; a missing header is a `NullPointerException`. */
  method GetFileName(header: Option<string>) returns (r: Result<string, string>)
    ensures header.None? ==> r == Err("NullPointerException")
    ensures header.Some? ==>
      var segments := JavaSplit(header.value, ';');
      var i := FilenameIndex(segments);
      r == if i == -1 then Ok("unknown") else FileNameIn(segments[i])
  {
    if header.None? {
      return Err("NullPointerException");
    }
    var contentDisposition := JavaSplit(header.value, ';');
    ghost var first := FilenameIndex(contentDisposition);
    for i := 0 to |contentDisposition|
      invariant first == -1 || i <= first
    {
      var filename := contentDisposition[i];
      if StartsWith(Trim(filename), "filename") {
        assert first == i;
        return FileNameIn(filename);
      }
    }
    r := Ok("unknown");
  }
}
