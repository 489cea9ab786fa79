/**
 * The ETag route filter: entity tags in the syntax of section 2.3 of RFC 7232,
 * the If-None-Match precondition (section 3.2 of RFC 7232, but compared by
 * exact string equality after stripping "-gzip"), and the path and browser
 * gates of the filter. The file lookup is outside the model: the filter is
 * given the tag of the requested file, or `None` when there is no such file.
 */
module ETagFilter {
  import opened Wrappers
  import opened Strings

  datatype EntityTag = EntityTag(value: string, weak: bool)

  const IfModifiedSince := "If-Modified-Since"
  const LastModified := "Last-Modified"
  const IfNoneMatch := "If-None-Match"
  const ETag := "ETag"
  const UserAgent := "User-Agent"
  const NotModified := 304

  /** The designated constructor: a null value is rejected. */
  function NewEntityTag(value: Option<string>, weak: bool): (r: Result<EntityTag, string>)
    ensures value.None? <==> r == Err("IllegalArgumentException")
    ensures value.Some? ==> r == Ok(EntityTag(value.value, weak))
  {
    if value.None? then Err("IllegalArgumentException") else Ok(EntityTag(value.value, weak))
  }

  /** `toString`: `W/"v"` for a weak tag, `"v"` for a strong one */
  function TagString(t: EntityTag): string {
    (if t.weak then "W/" else "") + "\"" + t.value + "\""
  }

  /** Reads an entity-tag back: an optional `W/`, then the value between the outer quotes. */
  function ParseTag(s: string): Option<EntityTag> {
    var weak := StartsWith(s, "W/");
    var quoted := if weak then s[2..] else s;
    if |quoted| >= 2 && quoted[0] == '"' && quoted[|quoted| - 1] == '"' then
      Some(EntityTag(quoted[1..|quoted| - 1], weak))
    else None
  }

  /** The formatted tag reads back as the same tag, so different tags format differently. */
  lemma TagStringRoundTrip(t: EntityTag)
    ensures ParseTag(TagString(t)) == Some(t)
  {
    var s := TagString(t);
    var quoted := "\"" + t.value + "\"";
    if t.weak {
      assert s == "W/" + quoted && s[2..] == quoted;
    } else {
      assert s == quoted;
      assert s[0] == '"';
    }
    assert quoted[1..|quoted| - 1] == t.value;
  }

  lemma TagStringInjective(a: EntityTag, b: EntityTag)
    requires TagString(a) == TagString(b)
    ensures a == b
  {
    TagStringRoundTrip(a);
    TagStringRoundTrip(b);
  }

  /** `trimEtagValue`: null passes through, and every "-gzip" is removed in one left-to-right pass. */
  function TrimEtagValue(etag: Option<string>): Option<string> {
    if etag.Some? && Contains(etag.value, "-gzip") then Some(ReplaceAll(etag.value, "-gzip", "")) else etag
  }

  /** A value without "-gzip" is left as it is. */
  lemma TrimWithoutGzip(etag: Option<string>)
    requires etag.None? || !Contains(etag.value, "-gzip")
    ensures TrimEtagValue(etag) == etag
  {
  }

  /** The suffix an Apache module appends inside the quotes is removed. */
  lemma TrimGzipSuffix(v: string)
    requires '-' !in v
    ensures TrimEtagValue(Some("W/\"" + v + "-gzip\"")) == Some("W/\"" + v + "\"")
  {
    var s := "W/\"" + v + "-gzip\"";
    assert OccursAt(s, "-gzip", |v| + 3) by {
      assert s[|v| + 3..|v| + 8] == "-gzip";
    }
    ReplaceAfterPrefix(s, "W/\"" + v, "\"");
  }

  lemma {:induction false} ReplaceAfterPrefix(s: string, prefix: string, rest: string)
    requires s == prefix + "-gzip" + rest && '-' !in prefix && rest == "\""
    ensures ReplaceAll(s, "-gzip", "") == prefix + rest
    decreases |prefix|
  {
    if |prefix| == 0 {
      assert StartsWith(s, "-gzip");
      assert s[5..] == rest;
      assert ReplaceAll(rest, "-gzip", "") == rest;
    } else {
      assert s[0] == prefix[0] && prefix[0] != '-';
      assert !StartsWith(s, "-gzip");
      assert s[1..] == prefix[1..] + "-gzip" + rest;
      ReplaceAfterPrefix(s[1..], prefix[1..], rest);
    }
  }

  /** One pass only: "--gzipgzip" still contains "-gzip" after trimming. */
  lemma TrimIsSinglePass()
    ensures TrimEtagValue(Some("--gzipgzip")) == Some("-gzip")
  {
    var s := "--gzipgzip";
    assert OccursAt(s, "-gzip", 1) by { assert s[1..6] == "-gzip"; }
    assert Contains(s, "-gzip");
    ReplaceOnce(s);
  }

  /** The replacement of "--gzipgzip": the second '-' starts the only occurrence. */
  lemma ReplaceOnce(s: string)
    requires s == "--gzipgzip"
    ensures ReplaceAll(s, "-gzip", "") == "-gzip"
  {
    assert !StartsWith(s, "-gzip") by { assert s[..5][1] == '-'; }
    var t := s[1..];
    assert t == "-gzipgzip" && StartsWith(t, "-gzip");
    assert ReplaceAll(s, "-gzip", "") == "-" + ReplaceAll(t, "-gzip", "");
    assert t[5..] == "gzip";
    assert !Contains("gzip", "-gzip");
    ReplaceAbsent("gzip", "-gzip", "");
    assert ReplaceAll(t, "-gzip", "") == "gzip";
  }

  /** `isChrome`: a User-Agent that is not blank and mentions "Chrome" */
  function IsChrome(userAgent: Option<string>): bool {
    userAgent.Some? && !IsBlank(userAgent.value) && Contains(userAgent.value, "Chrome")
  }

  /** The blank test is redundant: a User-Agent mentioning "Chrome" is never blank. */
  lemma IsChromeIffMentionsChrome(userAgent: Option<string>)
    ensures IsChrome(userAgent) <==> userAgent.Some? && Contains(userAgent.value, "Chrome")
  {
    if userAgent.Some? && Contains(userAgent.value, "Chrome") {
      var ua := userAgent.value;
      var i :| 0 <= i <= |ua| && OccursAt(ua, "Chrome", i);
      assert ua[i] == ua[i..i + 6][0] == 'C';
    }
  }

  /** Only these paths are ever considered for ETag handling. */
  predicate InPathGate(path: string) {
    StartsWith(path, "/index.html") || StartsWith(path, "/app/")
  }

  /** `isAppConfFile` */
  predicate IsAppConfFile(path: string) {
    StartsWith(path, "/conf/")
  }

  /** The configuration-file test inside the gate never fires: no gated path starts with "/conf/". */
  lemma GateExcludesConf(path: string)
    requires InPathGate(path)
    ensures !IsAppConfFile(path)
  {
    assert path[1] != 'c' by {
      if StartsWith(path, "/index.html") {
        assert path[1] == path[..11][1] == 'i';
      } else {
        assert path[1] == path[..5][1] == 'a';
      }
    }
    if 6 <= |path| {
      assert path[..6][1] == path[1];
      assert "/conf/"[1] == 'c';
    }
  }

  /** Whether some If-None-Match value, trimmed, equals the tag string exactly */
  predicate AnyMatch(values: seq<string>, tag: string) {
    exists i :: 0 <= i < |values| && TrimEtagValue(Some(values[i])) == Some(tag)
  }

  /** Exact equality, not the weak comparison: a strong echo of a weak tag does not match. */
  lemma ExactNotWeakComparison()
    ensures !AnyMatch(["\"17_4\""], TagString(EntityTag("17_4", true)))
  {
    var v := "\"17_4\"";
    assert !Contains(v, "-gzip") by {
      forall i | 0 <= i <= |v| ensures !OccursAt(v, "-gzip", i) {
        if i + 5 <= |v| { assert v[i..i + 5][0] == v[i] != '-'; }
      }
    }
    assert TagString(EntityTag("17_4", true))[0] == 'W';
  }

  /**
   * The first value of a header, as `getHeader` returns it. Header names are
   * map keys in the spelling the filter uses; the container's case-insensitive
   * name matching is taken to have happened before.
   */
  function FirstHeader(headers: map<string, seq<string>>, name: string): Option<string> {
    if name in headers && |headers[name]| > 0 then Some(headers[name][0]) else None
  }

  class Request {
    var path: string
    var headers: map<string, seq<string>>

    constructor (path: string, headers: map<string, seq<string>>)
      ensures this.path == path && this.headers == headers
    {
      this.path := path;
      this.headers := headers;
    }
  }

  class Response {
    var headers: map<string, seq<string>>
    var status: int

    constructor (headers: map<string, seq<string>>, status: int)
      ensures this.headers == headers && this.status == status
    {
      this.headers := headers;
      this.status := status;
    }
  }

  /** `evaluatePreconditions` */
  method EvaluatePreconditions(etag: Option<EntityTag>, request: Request, response: Response) returns (matched: bool)
    modifies response
    ensures etag.None? ==> !matched && response.headers == old(response.headers) && response.status == old(response.status)
    ensures etag.Some? ==> response.headers == old(response.headers)[ETag := [TagString(etag.value)]]
    ensures etag.Some? ==>
      (matched <==> IfNoneMatch in request.headers && AnyMatch(request.headers[IfNoneMatch], TagString(etag.value)))
    ensures response.status == if matched then NotModified else old(response.status)
  {
    if etag.None? {
      return false;
    }
    var tag := TagString(etag.value);
    response.headers := response.headers[ETag := [tag]];
    var values := if IfNoneMatch in request.headers then request.headers[IfNoneMatch] else [];
    var found := exists i :: 0 <= i < |values| && TrimEtagValue(Some(values[i])) == Some(tag);
    if found {
      response.status := NotModified;
      return true;
    }
    return false;
  }

  /** Whether the filter looks at ETags for this request: gated path, Chrome, not a conf file, an existing file */
  predicate UsesETag(path: string, headers: map<string, seq<string>>, fileTag: Option<EntityTag>) {
    InPathGate(path) && IsChrome(FirstHeader(headers, UserAgent)) && !IsAppConfFile(path) && fileTag.Some?
  }

  /**
   * `doFilter`: `next` says whether the request is passed on. On an ETag match
   * the filter answers 304 itself; otherwise If-Modified-Since is dropped from
   * the request and Last-Modified from the response.
   */
  method DoFilter(request: Request, response: Response, fileTag: Option<EntityTag>) returns (next: bool)
    modifies request, response
    ensures request.path == old(request.path)
    ensures !UsesETag(old(request.path), old(request.headers), fileTag) ==>
      && next && request.headers == old(request.headers)
      && response.headers == old(response.headers) && response.status == old(response.status)
    ensures UsesETag(old(request.path), old(request.headers), fileTag) ==>
      var tag := TagString(fileTag.value);
      var matched := IfNoneMatch in old(request.headers) && AnyMatch(old(request.headers)[IfNoneMatch], tag);
      && (next <==> !matched)
      && (matched ==> request.headers == old(request.headers) && response.status == NotModified
                      && response.headers == old(response.headers)[ETag := [tag]])
      && (!matched ==> response.status == old(response.status)
                       && request.headers == (if FirstHeader(old(request.headers), IfModifiedSince).Some?
                                              then old(request.headers) - {IfModifiedSince} else old(request.headers))
                       && response.headers == old(response.headers)[ETag := [tag]] - {LastModified})
  {
    var path := request.path;
    if InPathGate(path) {
      if IsChrome(FirstHeader(request.headers, UserAgent)) && !IsAppConfFile(request.path) {
        if fileTag.Some? {
          var matched := EvaluatePreconditions(fileTag, request, response);
          if matched {
            return false;
          } else if FirstHeader(request.headers, IfModifiedSince).Some? {
            request.headers := request.headers - {IfModifiedSince};
          }
          response.headers := response.headers - {LastModified};
        }
      }
    }
    next := true;
  }
}
