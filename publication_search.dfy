/**
 * The publication search parameters: fluent setters for the search criteria
 * and the one-line description of the criteria used in log messages. The
 * message-publication and file-type enumerations are held as the text their
 * `toString` gives; a null field is `None`.
 */
module PublicationSearch {
  import opened Wrappers
  import opened Strings

  datatype Criteria = Criteria(
    language: Option<string>,
    title: Option<string>,
    domain: Option<string>,
    searchType: Option<string>,
    fileType: Option<string>,
    messagePublication: Option<string>)

  /** Commons-lang `isNotBlank`: not null and not only whitespace */
  predicate NotBlank(s: Option<string>) {
    s.Some? && !IsBlank(s.value)
  }

  /** One part, when its criterion is set */
  function Opt(present: bool, part: string): (r: seq<string>)
    ensures |r| == (if present then 1 else 0)
    ensures forall k :: 0 <= k < |r| ==> r[k] == part
  {
    if present then [part] else []
  }

  function Labelled(field: string, v: string): (r: string)
    ensures |r| == |field| + 2 + |v|
  {
    field + ": " + v
  }

  function Quoted(field: string, v: string): (r: string)
    ensures |r| == |field| + 4 + |v|
  {
    field + ": '" + v + "'"
  }

  /** The description parts, in the order `toString` adds them */
  function Parts(c: Criteria): seq<string> {
    Opt(c.messagePublication.Some?, Labelled("MessagePublication", ValueOr(c.messagePublication)))
    + Opt(c.fileType.Some?, Labelled("FileType", ValueOr(c.fileType)))
    + Opt(NotBlank(c.language), Labelled("Language", ValueOr(c.language)))
    + Opt(NotBlank(c.domain), Labelled("Domain", ValueOr(c.domain)))
    + Opt(NotBlank(c.searchType), Labelled("Type", ValueOr(c.searchType)))
    + Opt(NotBlank(c.title), Quoted("Title", ValueOr(c.title)))
    + Opt(NotBlank(c.domain), Quoted("Domain", ValueOr(c.domain)))
  }

  function ValueOr(s: Option<string>): string {
    if s.Some? then s.value else ""
  }

  /** The number of criteria that are set, counting the domain twice */
  function PartCount(c: Criteria): nat {
    (if c.messagePublication.Some? then 1 else 0) + (if c.fileType.Some? then 1 else 0)
    + (if NotBlank(c.language) then 1 else 0) + (if NotBlank(c.domain) then 2 else 0)
    + (if NotBlank(c.searchType) then 1 else 0) + (if NotBlank(c.title) then 1 else 0)
  }

  /** `toString`: the parts joined with ", " */
  function Description(c: Criteria): string {
    Join(Parts(c), ", ")
  }

  /** There is one part per criterion that is set, the domain counting twice, and no part is empty. */
  lemma PartsCount(c: Criteria)
    ensures |Parts(c)| == PartCount(c)
    ensures forall k :: 0 <= k < |Parts(c)| ==> Parts(c)[k] != ""
  {
    var p1 := Opt(c.messagePublication.Some?, Labelled("MessagePublication", ValueOr(c.messagePublication)));
    var p2 := Opt(c.fileType.Some?, Labelled("FileType", ValueOr(c.fileType)));
    var p3 := Opt(NotBlank(c.language), Labelled("Language", ValueOr(c.language)));
    var p4 := Opt(NotBlank(c.domain), Labelled("Domain", ValueOr(c.domain)));
    var p5 := Opt(NotBlank(c.searchType), Labelled("Type", ValueOr(c.searchType)));
    var p6 := Opt(NotBlank(c.title), Quoted("Title", ValueOr(c.title)));
    var p7 := Opt(NotBlank(c.domain), Quoted("Domain", ValueOr(c.domain)));
    assert Parts(c) == p1 + p2 + p3 + p4 + p5 + p6 + p7;
    NoEmptyAppend(p1, p2);
    NoEmptyAppend(p1 + p2, p3);
    NoEmptyAppend(p1 + p2 + p3, p4);
    NoEmptyAppend(p1 + p2 + p3 + p4, p5);
    NoEmptyAppend(p1 + p2 + p3 + p4 + p5, p6);
    NoEmptyAppend(p1 + p2 + p3 + p4 + p5 + p6, p7);
  }

  predicate NoEmpty(parts: seq<string>) {
    forall k :: 0 <= k < |parts| ==> parts[k] != ""
  }

  lemma NoEmptyAppend(x: seq<string>, y: seq<string>)
    requires NoEmpty(x) && NoEmpty(y)
    ensures NoEmpty(x + y)
  {
    forall k | 0 <= k < |x + y| ensures (x + y)[k] != "" {
      if k >= |x| {
        assert (x + y)[k] == y[k - |x|];
      }
    }
  }

  lemma {:induction false} JoinEmpty(parts: seq<string>, sep: string)
    requires forall k :: 0 <= k < |parts| ==> parts[k] != ""
    ensures Join(parts, sep) == "" <==> parts == []
  {
    if |parts| >= 2 {
      assert |Join(parts, sep)| >= |parts[0]|;
    }
  }

  /** The description is empty exactly when no criterion is set. */
  lemma DescriptionEmpty(c: Criteria)
    ensures Description(c) == "" <==> PartCount(c) == 0
  {
    PartsCount(c);
    JoinEmpty(Parts(c), ", ");
  }

  /** A domain that is not blank is described twice, plain and then quoted, with the other parts between. */
  lemma DomainTwice(c: Criteria)
    requires NotBlank(c.domain)
    ensures var ps := Parts(c);
      exists i, j :: 0 <= i < j < |ps| && ps[i] == "Domain: " + c.domain.value && ps[j] == "Domain: '" + c.domain.value + "'"
        && j == |ps| - 1
  {
    var ps := Parts(c);
    var before := (if c.messagePublication.Some? then 1 else 0) + (if c.fileType.Some? then 1 else 0)
      + (if NotBlank(c.language) then 1 else 0);
    PartsCount(c);
    assert ps[before] == Labelled("Domain", c.domain.value);
    assert ps[|ps| - 1] == Quoted("Domain", c.domain.value);
  }

  /** Blank or null text criteria do not show in the description. */
  lemma BlankCriteriaOmitted(c: Criteria)
    requires !NotBlank(c.language) && !NotBlank(c.domain) && !NotBlank(c.searchType) && !NotBlank(c.title)
    ensures Parts(c) == Parts(c.(language := None, domain := None, searchType := None, title := None))
  {
  }

  /** Only the message publication set: the description is that one part. */
  lemma SingleCriterion(mp: string)
    ensures Description(Criteria(None, None, None, None, None, Some(mp))) == "MessagePublication: " + mp
  {
    assert Parts(Criteria(None, None, None, None, None, Some(mp))) == [Labelled("MessagePublication", mp)];
  }

  class PublicationSearchParams {
    var language: Option<string>
    var title: Option<string>
    var domain: Option<string>
    var searchType: Option<string>
    var fileType: Option<string>
    var messagePublication: Option<string>

    function State(): Criteria
      reads this
    {
      Criteria(language, title, domain, searchType, fileType, messagePublication)
    }

    constructor ()
      ensures State() == Criteria(None, None, None, None, None, None)
    {
      language := None;
      title := None;
      domain := None;
      searchType := None;
      fileType := None;
      messagePublication := None;
    }

    /** `toString`: the parts added one criterion at a time, then joined */
    method ToString() returns (r: string)
      ensures r == Description(State())
    {
      var hasLanguage, hasDomain := NotBlank(language), NotBlank(domain);
      var hasType, hasTitle := NotBlank(searchType), NotBlank(title);
      var desc: seq<string> := [];
      if messagePublication.Some? { desc := desc + [Labelled("MessagePublication", messagePublication.value)]; }
      assert desc == Opt(messagePublication.Some?, Labelled("MessagePublication", ValueOr(messagePublication)));
      if fileType.Some? { desc := desc + [Labelled("FileType", fileType.value)]; }
      ghost var expected := Opt(messagePublication.Some?, Labelled("MessagePublication", ValueOr(messagePublication)))
        + Opt(fileType.Some?, Labelled("FileType", ValueOr(fileType)));
      assert desc == expected;
      if hasLanguage { desc := desc + [Labelled("Language", language.value)]; }
      expected := expected + Opt(hasLanguage, Labelled("Language", ValueOr(language)));
      assert desc == expected;
      if hasDomain { desc := desc + [Labelled("Domain", domain.value)]; }
      expected := expected + Opt(hasDomain, Labelled("Domain", ValueOr(domain)));
      assert desc == expected;
      if hasType { desc := desc + [Labelled("Type", searchType.value)]; }
      expected := expected + Opt(hasType, Labelled("Type", ValueOr(searchType)));
      assert desc == expected;
      if hasTitle { desc := desc + [Quoted("Title", title.value)]; }
      expected := expected + Opt(hasTitle, Quoted("Title", ValueOr(title)));
      assert desc == expected;
      if hasDomain { desc := desc + [Quoted("Domain", domain.value)]; }
      expected := expected + Opt(hasDomain, Quoted("Domain", ValueOr(domain)));
      assert desc == expected;
      assert expected == Parts(State());
      r := Join(desc, ", ");
    }

    /** `language(...)` */
    method Language(v: Option<string>) returns (r: PublicationSearchParams)
      modifies this
      ensures r == this && State() == old(State()).(language := v)
    {
      language := v;
      r := this;
    }

    /** `title(...)` */
    method Title(v: Option<string>) returns (r: PublicationSearchParams)
      modifies this
      ensures r == this && State() == old(State()).(title := v)
    {
      title := v;
      r := this;
    }

    /** `domain(...)` */
    method Domain(v: Option<string>) returns (r: PublicationSearchParams)
      modifies this
      ensures r == this && State() == old(State()).(domain := v)
    {
      domain := v;
      r := this;
    }

    /** `type(...)` */
    method SearchType(v: Option<string>) returns (r: PublicationSearchParams)
      modifies this
      ensures r == this && State() == old(State()).(searchType := v)
    {
      searchType := v;
      r := this;
    }

    /** `messagePublication(...)` */
    method MessagePublication(v: Option<string>) returns (r: PublicationSearchParams)
      modifies this
      ensures r == this && State() == old(State()).(messagePublication := v)
    {
      messagePublication := v;
      r := this;
    }

    /** `fileType(...)` */
    method FileType(v: Option<string>) returns (r: PublicationSearchParams)
      modifies this
      ensures r == this && State() == old(State()).(fileType := v)
    {
      fileType := v;
      r := this;
    }
  }
}
