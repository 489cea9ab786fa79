/**
 * The site-config.js route: the block between the settings markers of the
 * template is replaced by generated JavaScript that assigns every web setting
 * and the list of domains to `$rootScope`. JSON serialisation is outside the
 * model: each setting carries its serialised value, or `None` when the
 * serialiser fails, and the domain list likewise.
 */
module SiteConfig {
  import opened Wrappers
  import opened Strings

  const SettingsStart := "/** SETTINGS START **/"
  const SettingsEnd := "/** SETTINGS END **/"
  const DomainsPrefix := "    $rootScope.domains = "
  const StatementEnd := ";\n\n"

  /** A web setting; `json` is the serialised value, `None` when serialising it throws */
  datatype WebSetting = WebSetting(key: string, description: string, json: Option<string>)

  /** `escapeKey` */
  function EscapeKey(key: string): string {
    ReplaceChar(ReplaceChar(key, '.', '_'), ' ', '_')
  }

  /** Escaping keeps the length, replaces every '.' and every ' ' by '_' and changes nothing else. */
  lemma EscapeKeyChars(key: string)
    ensures |EscapeKey(key)| == |key|
    ensures '.' !in EscapeKey(key) && ' ' !in EscapeKey(key)
    ensures forall i :: 0 <= i < |key| ==>
      EscapeKey(key)[i] == (if key[i] == '.' || key[i] == ' ' then '_' else key[i])
  {
    var r := EscapeKey(key);
    forall c | c in r ensures c != '.' && c != ' ' {
      var i :| 0 <= i < |r| && r[i] == c;
    }
  }

  /**
   * What one setting adds: its description as a comment, then the assignment.
   * When the value cannot be serialised, the assignment has already been
   * started, so "    $rootScope.<key> = " stays without a value.
   */
  function SettingBlock(s: WebSetting): string {
    var comment := "    /** " + s.description + " **/\n";
    var lhs := "    $rootScope." + EscapeKey(s.key) + " = ";
    match s.json
    case Some(v) => comment + lhs + v + StatementEnd
    case None => comment + lhs
  }

  /** The concatenation of `parts` in order */
  function Concat(parts: seq<string>): string {
    if |parts| == 0 then "" else Concat(parts[..|parts| - 1]) + parts[|parts| - 1]
  }

  lemma ConcatSnoc(p: seq<string>, x: string)
    ensures Concat(p + [x]) == Concat(p) + x
  {
    assert (p + [x])[..|p|] == p;
  }

  lemma {:induction false} ConcatAppend(a: seq<string>, b: seq<string>)
    ensures Concat(a + b) == Concat(a) + Concat(b)
    decreases |b|
  {
    if b == [] {
      assert a + b == a;
    } else {
      assert (a + b)[..|a + b| - 1] == a + b[..|b| - 1];
      ConcatAppend(a, b[..|b| - 1]);
    }
  }

  /** The block of each setting, in order */
  function BlockList(settings: seq<WebSetting>): (r: seq<string>)
    ensures |r| == |settings| && forall i :: 0 <= i < |r| ==> r[i] == SettingBlock(settings[i])
  {
    seq(|settings|, i requires 0 <= i < |settings| => SettingBlock(settings[i]))
  }

  /** `getWebSettings`: a newline, then one block per setting in order */
  function SettingsScript(settings: seq<WebSetting>): string {
    "\n" + Concat(BlockList(settings))
  }

  /** Settings are emitted independently: the script of a concatenation is the concatenation of the blocks. */
  lemma BlocksAppend(a: seq<WebSetting>, b: seq<WebSetting>)
    ensures SettingsScript(a + b) == SettingsScript(a) + Concat(BlockList(b))
  {
    assert BlockList(a + b) == BlockList(a) + BlockList(b);
    ConcatAppend(BlockList(a), BlockList(b));
  }

  lemma BlocksSnoc(s: seq<WebSetting>, i: nat)
    requires i < |s|
    ensures Concat(BlockList(s[..i + 1])) == Concat(BlockList(s[..i])) + SettingBlock(s[i])
  {
    assert BlockList(s[..i + 1]) == BlockList(s[..i]) + [SettingBlock(s[i])];
    ConcatSnoc(BlockList(s[..i]), SettingBlock(s[i]));
  }

  lemma SingleScript(s: WebSetting)
    ensures SettingsScript([s]) == "\n" + SettingBlock(s)
  {
    assert BlockList([s]) == [] + [SettingBlock(s)];
    ConcatSnoc([], SettingBlock(s));
  }

  /** A single setting with a value becomes a comment followed by its complete assignment. */
  lemma SingleSetting(s: WebSetting)
    requires s.json.Some?
    ensures SettingsScript([s]) == "\n    /** " + s.description + " **/\n    $rootScope." + EscapeKey(s.key) + " = " + s.json.value + ";\n\n"
  {
    SingleScript(s);
  }

  /** A value that fails to serialise leaves an unfinished assignment in the script. */
  lemma FailedValueLeavesPartialAssignment(key: string, description: string)
    ensures SettingsScript([WebSetting(key, description, None)]) == "\n    /** " + description + " **/\n    $rootScope." + EscapeKey(key) + " = "
  {
    SingleScript(WebSetting(key, description, None));
  }

  /** `getWebSettings` builds the script by appending block after block. */
  method WebSettings(settings: seq<WebSetting>) returns (str: string)
    ensures str == SettingsScript(settings)
  {
    str := "\n";
    var i := 0;
    while i < |settings|
      invariant 0 <= i <= |settings|
      invariant str == "\n" + Concat(BlockList(settings[..i]))
    {
      BlocksSnoc(settings, i);
      var block := SettingBlock(settings[i]);
      AppendAssoc("\n", Concat(BlockList(settings[..i])), block);
      str := str + block;
      i := i + 1;
    }
    assert settings[..i] == settings;
  }

  /** `getDomains`: the assignment of the serialised domain list, or of "[]" when serialising fails */
  function DomainsScript(json: Option<string>): (r: string)
    ensures StartsWith(r, DomainsPrefix)
    ensures |r| >= |DomainsPrefix| + |StatementEnd| && r[|r| - |StatementEnd|..] == StatementEnd
    ensures json.None? ==> r == DomainsPrefix + "[]" + StatementEnd
    ensures json.Some? ==> r[|DomainsPrefix|..|r| - |StatementEnd|] == json.value
  {
    var v := if json.Some? then json.value else "[]";
    var r := DomainsPrefix + v + StatementEnd;
    assert r[..|DomainsPrefix|] == DomainsPrefix;
    assert r[|r| - |StatementEnd|..] == StatementEnd;
    assert r[|DomainsPrefix|..|r| - |StatementEnd|] == v;
    r
  }

  /**
   * `updateResponse`: when both markers occur, the text from the first start
   * marker to the end of the first end marker is replaced by the settings and
   * the domains; otherwise the template is returned as it is.
   */
  function UpdateResponse(response: string, settings: seq<WebSetting>, domains: Option<string>): (r: string)
    ensures !Contains(response, SettingsStart) || !Contains(response, SettingsEnd) ==> r == response
  {
    var startIndex := IndexOf(response, SettingsStart);
    var endIndex := IndexOf(response, SettingsEnd);
    if startIndex != -1 && endIndex != -1 then
      response[..startIndex] + SettingsScript(settings) + DomainsScript(domains) + response[endIndex + |SettingsEnd|..]
    else response
  }

  /**
   * A template `p START m END q`, where the markers shown are the first ones,
   * comes out as `p`, the settings, the domains and `q`: both markers and all
   * of `m` are gone, the text around them is kept.
   */
  lemma SpliceTemplate(p: string, m: string, q: string, settings: seq<WebSetting>, domains: Option<string>)
    requires IndexOf(p + SettingsStart, SettingsStart) == |p|
    requires IndexOf(p + SettingsStart + m + SettingsEnd, SettingsEnd) == |p + SettingsStart + m|
    ensures UpdateResponse(p + SettingsStart + m + SettingsEnd + q, settings, domains)
            == p + SettingsScript(settings) + DomainsScript(domains) + q
  {
    var t := p + SettingsStart + m + SettingsEnd + q;
    var a := p + SettingsStart;
    assert t == a + (m + SettingsEnd + q);
    IndexOfExtend(a, m + SettingsEnd + q, SettingsStart);
    var b := a + m + SettingsEnd;
    assert t == b + q;
    IndexOfExtend(b, q, SettingsEnd);
    var e := |a + m| + |SettingsEnd|;
    assert e == |b|;
    assert t[..|p|] == p;
    assert t[e..] == q;
    assert UpdateResponse(t, settings, domains) == t[..|p|] + SettingsScript(settings) + DomainsScript(domains) + t[e..];
  }

}
