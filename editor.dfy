/**
 * The message editor: which editor fields are shown, the chart, reference and
 * date-interval lists of the message being edited, the checks made before a
 * message is saved or published, the status each action requires, and the
 * history selection. Server calls, dialogs, notifications and the DOM are
 * outside the model; an action that passes its checks is modelled as the
 * status change it requests.
 */
module Editor {
  import opened Wrappers
  import opened Sequences
  import opened Charts
  import opened Sorting

  /** JavaScript truthiness of an optional string: present and not empty */
  predicate Present(s: Option<string>) {
    s.Some? && s.value != ""
  }

  /** JavaScript truthiness of an optional date, held as a timestamp: present and not 0 */
  predicate DateSet(d: Option<int>) {
    d.Some? && d.value != 0
  }

  datatype Series = Series(seriesId: string)
  datatype DateInterval = DateInterval(fromDate: Option<int>, toDate: Option<int>)
  datatype Desc = Desc(lang: string, title: Option<string>, subject: Option<string>)
  datatype Reference = Reference(messageId: Option<string>, refType: string)
  /** The status names the editor tests for, each with a constructor of its own */
  const NamedStatuses: set<string> := {"DRAFT", "VERIFIED", "PUBLISHED", "CANCELLED", "DELETED"}

  /** Any other status name, such as "IMPORTED" or "EXPIRED"; it never spells a named status */
  type OtherName = s: string | s !in NamedStatuses witness "IMPORTED"

  datatype Status = Draft | Verified | Published | Cancelled | Deleted | OtherStatus(name: OtherName)

  datatype Message = Message(
    mainType: Option<string>,
    msgType: Option<string>,
    messageSeries: Option<Series>,
    status: Status,
    dateIntervals: Option<seq<DateInterval>>,
    descs: seq<Desc>,
    references: seq<Reference>,
    charts: Option<seq<Chart>>)

  /** The entries of a message history, with their selection check boxes */
  datatype HistoryEntry = HistoryEntry(version: int, selected: bool)

  // ---------------------------------------------------------------------
  // Editor fields

  /** Whether a field map holds `true` for `field` */
  predicate Flag(m: map<string, bool>, field: string) {
    field in m && m[field]
  }

  /**
   * The unused-field toggles once the fields in `done` have been visited:
   * an enabled field is dropped, a disabled one keeps the toggle it had in
   * `start` or gets `false`; fields not visited keep their toggle.
   */
  function Unused(start: map<string, bool>, fields: map<string, bool>, done: set<string>): map<string, bool> {
    map k | k in start.Keys + (done * fields.Keys) && !(k in done && Flag(fields, k)) ::
      if k in start then start[k] else false
  }

  /**
   * After all fields are visited: no enabled field is in the toggles, every
   * disabled field is, with its old toggle or `false`, and the toggles of
   * other fields are kept.
   */
  lemma UnusedFields(start: map<string, bool>, fields: map<string, bool>)
    ensures var r := Unused(start, fields, fields.Keys);
      && (forall f :: Flag(fields, f) ==> f !in r)
      && (forall f :: f in fields && !fields[f] ==> f in r && r[f] == (f in start && start[f]))
      && (forall f :: f !in fields ==> (f in r <==> f in start) && (f in start ==> r[f] == start[f]))
  {
  }

  /** Visiting one more field: an enabled one is dropped, a disabled one gets `false` unless it has a toggle */
  lemma UnusedStep(start: map<string, bool>, fields: map<string, bool>, done: set<string>, field: string)
    requires field in fields && field !in done
    ensures Unused(start, fields, done + {field}) ==
      var u := Unused(start, fields, done);
      if fields[field] then u - {field}
      else if field !in u then u[field := false]
      else u
  {
  }

  /** The loop of `setEditorFields` over the fields of the message, starting from `start` */
  method UnusedToggles(fields: map<string, bool>, start: map<string, bool>) returns (unused: map<string, bool>)
    ensures unused == Unused(start, fields, fields.Keys)
  {
    unused := start;
    var todo := fields.Keys;
    while todo != {}
      invariant todo <= fields.Keys
      invariant unused == Unused(start, fields, fields.Keys - todo)
      decreases todo
    {
      var field :| field in todo;
      UnusedStep(start, fields, fields.Keys - todo, field);
      if fields[field] {
        unused := unused - {field};
      } else if field !in unused {
        unused := unused[field := false];
      }
      todo := todo - {field};
      assert fields.Keys - todo == (fields.Keys - (todo + {field})) + {field};
    }
    assert fields.Keys - todo == fields.Keys;
  }

  // ---------------------------------------------------------------------
  // Lists of the message

  /** The `splice` of the first occurrence of `x`, when there is one */
  function DeleteFirst<T(==)>(s: seq<T>, x: T): seq<T> {
    var i := FirstIndex(s, x);
    if i > -1 then s[..i] + s[i + 1..] else s
  }

  /** Deleting removes exactly one occurrence when there is one, and nothing otherwise. */
  lemma DeleteFirstRemovesOne<T>(s: seq<T>, x: T)
    ensures x !in s ==> DeleteFirst(s, x) == s
    ensures x in s ==> |DeleteFirst(s, x)| == |s| - 1 && multiset(DeleteFirst(s, x)) == multiset(s) - multiset{x}
    ensures x in s ==> DeleteFirst(s, x) == s[..FirstIndex(s, x)] + s[FirstIndex(s, x) + 1..]
  {
    var i := FirstIndex(s, x);
    if i != -1 {
      var before, after := s[..i], s[i + 1..];
      assert DeleteFirst(s, x) == before + after;
      assert s == before + [x] + after;
      RemoveAtMultiset(before, x, after);
    }
  }

  lemma RemoveAtMultiset<T>(before: seq<T>, x: T, after: seq<T>)
    ensures multiset(before + [x] + after) - multiset{x} == multiset(before + after)
  {
    var m := multiset(before + after);
    assert multiset(before + [x] + after) == m + multiset{x};
    assert (m + multiset{x}) - multiset{x} == m;
  }

  /** The sort key of a chart: its scale, or 10000000 when the scale is missing or 0 */
  function ScaleKey(c: Chart): int {
    if c.scale.Some? && c.scale.value != 0 then c.scale.value else 10000000
  }

  predicate ScaleLeq(a: Chart, b: Chart) {
    ScaleKey(a) <= ScaleKey(b)
  }

  lemma ScaleLeqIsTotalPreorder()
    ensures TotalPreorder(ScaleLeq)
  {
  }

  /** `sortCharts`: ascending by scale key, an unset list is left alone */
  function SortedCharts(charts: Option<seq<Chart>>): (r: Option<seq<Chart>>)
    ensures charts.None? ==> r.None?
    ensures charts.Some? ==>
      && r.Some? && multiset(r.value) == multiset(charts.value)
      && forall i, j :: 0 <= i < j < |r.value| ==> ScaleKey(r.value[i]) <= ScaleKey(r.value[j])
  {
    if charts.None? then None
    else
      ScaleLeqIsTotalPreorder();
      Some(SortBy(charts.value, ScaleLeq))
  }

  /** A chart without a scale sorts after every chart of a smaller scale. */
  lemma UnscaledChartsLast(charts: seq<Chart>, i: int, j: int)
    requires var r := SortedCharts(Some(charts)).value;
      0 <= i < |r| && 0 <= j < |r| && r[i].scale.None? && r[j].scale.Some? && 0 < r[j].scale.value < 10000000
    ensures j < i
  {
  }

  // ---------------------------------------------------------------------
  // Checks before saving and publishing

  /** An interval with a to-date but no from-date is refused. */
  predicate IntervalOk(di: DateInterval) {
    !(DateSet(di.toDate) && !DateSet(di.fromDate))
  }

  datatype SaveOutcome = MissingType | MissingSeries | MissingFromDate | Submitted

  /** The first problem `saveMessage` reports, or `Submitted` */
  function SaveCheck(m: Message): SaveOutcome {
    if !Present(m.mainType) || !Present(m.msgType) then MissingType
    else if m.messageSeries.None? then MissingSeries
    else if m.dateIntervals.Some? && exists k :: 0 <= k < |m.dateIntervals.value| && !IntervalOk(m.dateIntervals.value[k]) then MissingFromDate
    else Submitted
  }

  /** `fieldValid`: the type group needs both types, the id group a series; other groups are always valid */
  predicate FieldValid(m: Message, fieldId: string) {
    if fieldId == "type" then Present(m.mainType) && Present(m.msgType)
    else if fieldId == "id" then m.messageSeries.Some?
    else true
  }

  /** A message that `saveMessage` submits shows no invalid field group. */
  lemma SubmittedFieldsValid(m: Message, fieldId: string)
    requires SaveCheck(m) == Submitted
    ensures FieldValid(m, fieldId)
  {
  }

  /** The field groups name the first two reasons to refuse a save. */
  lemma InvalidFieldRefusesSave(m: Message)
    ensures !FieldValid(m, "type") <==> SaveCheck(m) == MissingType
    ensures FieldValid(m, "type") && !FieldValid(m, "id") <==> SaveCheck(m) == MissingSeries
  {
  }

  /** `editable`: drafts and verified messages, and any message for a system administrator */
  predicate Editable(m: Message, sysadmin: bool) {
    m.status == Draft || m.status == Verified || sysadmin
  }

  /** The messages that may be deleted are exactly those every user may edit. */
  lemma DeletableIffEditable(m: Message)
    ensures DeleteAction(m).Requested? <==> Editable(m, false)
  {
  }

  datatype DescField = Title | Subject

  function FieldOf(d: Desc, field: DescField): Option<string> {
    match field
    case Title => d.title
    case Subject => d.subject
  }

  /** Whether some desc has a non-empty value of the field */
  predicate AnyDescHas(descs: seq<Desc>, field: DescField) {
    exists k :: 0 <= k < |descs| && Present(FieldOf(descs[k], field))
  }

  /** The list items `canPublish` collects for the missing fields */
  function MissingFields(m: Message): string {
    (if !Present(m.msgType) then "<li>Type</li>" else "")
    + (if m.messageSeries.None? then "<li>Message Series</li>" else "")
    + (if !AnyDescHas(m.descs, Subject) then "<li>Subject</li>" else "")
    + (if !AnyDescHas(m.descs, Title) then "<li>Title</li>" else "")
  }

  /** Publishing is refused exactly when the type, the series, every subject or every title is missing. */
  lemma MissingFieldsEmpty(m: Message)
    ensures MissingFields(m) == "" <==>
      Present(m.msgType) && m.messageSeries.Some? && AnyDescHas(m.descs, Subject) && AnyDescHas(m.descs, Title)
  {
    var a := if !Present(m.msgType) then "<li>Type</li>" else "";
    var b := if m.messageSeries.None? then "<li>Message Series</li>" else "";
    var c := if !AnyDescHas(m.descs, Subject) then "<li>Subject</li>" else "";
    var d := if !AnyDescHas(m.descs, Title) then "<li>Title</li>" else "";
    assert |MissingFields(m)| == |a| + |b| + |c| + |d|;
  }

  /** What a guarded action does: refuse with a message, or request a status change */
  datatype Action = Rejected(reason: string) | Requested(newStatus: Status)

  function PublishCheckFailure(m: Message): string {
    "Missing fields:\n<ul>" + MissingFields(m) + "</ul>"
  }

  /** `verify`: only a draft that could be published */
  function VerifyAction(m: Message): Action {
    if m.status != Draft then Rejected("Only draft messages can be verified")
    else if MissingFields(m) != "" then Rejected(PublishCheckFailure(m))
    else Requested(Verified)
  }

  /** `publish`: only a verified message that could be published */
  function PublishAction(m: Message): Action {
    if m.status != Verified then Rejected("Only verified draft messages can be published")
    else if MissingFields(m) != "" then Rejected(PublishCheckFailure(m))
    else Requested(Published)
  }

  /** `delete`: drafts and verified messages, with no field checks */
  function DeleteAction(m: Message): Action {
    if m.status != Draft && m.status != Verified then Rejected("Only draft and verified messages can be deleted")
    else Requested(Deleted)
  }

  /** `cancel`: only published messages */
  function CancelAction(m: Message): Action {
    if m.status != Published then Rejected("Only published messages can be cancelled")
    else Requested(Cancelled)
  }

  /**
   * The guards follow the message life cycle DRAFT, VERIFIED, PUBLISHED,
   * CANCELLED, with DELETED reachable from the first two: each action
   * requests the next status and only from the status before it, so a
   * status allows at most one forward step, and a cancelled, deleted or
   * other message allows no action at all.
   */
  lemma GuardsFollowLifecycle(m: Message)
    ensures VerifyAction(m).Requested? <==> m.status == Draft && MissingFields(m) == ""
    ensures PublishAction(m).Requested? <==> m.status == Verified && MissingFields(m) == ""
    ensures DeleteAction(m).Requested? <==> m.status == Draft || m.status == Verified
    ensures CancelAction(m).Requested? <==> m.status == Published
    ensures !(VerifyAction(m).Requested? && PublishAction(m).Requested?)
    ensures !(CancelAction(m).Requested? && DeleteAction(m).Requested?)
    ensures m.status !in {Draft, Verified, Published} ==>
      VerifyAction(m).Rejected? && PublishAction(m).Rejected? && DeleteAction(m).Rejected? && CancelAction(m).Rejected?
  {
  }

  /** A draft that passes the field checks can be verified, then published, then cancelled. */
  lemma HappyPath(m: Message)
    requires m.status == Draft && MissingFields(m) == ""
    ensures VerifyAction(m) == Requested(Verified)
    ensures PublishAction(m.(status := Verified)) == Requested(Published)
    ensures CancelAction(m.(status := Published)) == Requested(Cancelled)
  {
  }

  // ---------------------------------------------------------------------
  // History selection

  function Reverse<T>(s: seq<T>): (r: seq<T>)
    ensures |r| == |s| && forall k :: 0 <= k < |s| ==> r[k] == s[|s| - 1 - k]
  {
    if |s| == 0 then [] else [s[|s| - 1]] + Reverse(s[..|s| - 1])
  }

  /** The selected entries, in history order */
  function SelectedEntries(history: seq<HistoryEntry>): (r: seq<HistoryEntry>)
    ensures forall h :: h in r <==> h in history && h.selected
  {
    if |history| == 0 then []
    else
      var last := history[|history| - 1];
      assert history == history[..|history| - 1] + [last];
      SelectedEntries(history[..|history| - 1]) + (if last.selected then [last] else [])
  }

  // ---------------------------------------------------------------------
  // The editor scope

  /** The loop of `updateSelection`: each selected entry is put in front with `unshift` */
  method CollectSelected(history: seq<HistoryEntry>) returns (selected: seq<HistoryEntry>)
    ensures selected == Reverse(SelectedEntries(history))
  {
    selected := [];
    var i := 0;
    while i < |history|
      invariant 0 <= i <= |history|
      invariant selected == Reverse(SelectedEntries(history[..i]))
    {
      var hist := history[i];
      assert history[..i + 1][..i] == history[..i];
      if hist.selected {
        ghost var before := SelectedEntries(history[..i]);
        assert SelectedEntries(history[..i + 1]) == before + [hist];
        assert (before + [hist])[..|before|] == before;
        selected := [hist] + selected;
      } else {
        assert SelectedEntries(history[..i + 1]) == SelectedEntries(history[..i]) + [];
      }
      i := i + 1;
    }
    assert history[..i] == history;
  }

  class EditorScope {
    var editorFields: map<string, bool>
    var unusedEditorFields: map<string, bool>
    var message: Message
    var messageSaving: bool
    var dirty: bool
    var messageHistory: seq<HistoryEntry>
    var selectedHistory: seq<HistoryEntry>

    constructor (base: map<string, bool>, message: Message)
      ensures editorFields == base && unusedEditorFields == map[] && this.message == message
      ensures !messageSaving && !dirty && messageHistory == [] && selectedHistory == []
    {
      editorFields := base;
      unusedEditorFields := map[];
      this.message := message;
      messageSaving := false;
      dirty := false;
      messageHistory := [];
      selectedHistory := [];
    }

    /** `showField`: enabled for the message, or switched on by hand */
    predicate ShowField(fieldId: string)
      reads this
    {
      Flag(editorFields, fieldId) || Flag(unusedEditorFields, fieldId)
    }

    /** `setEditorFields`: the message's field map (or the base map) and the toggles recomputed */
    method SetEditorFields(fields: Option<map<string, bool>>, base: map<string, bool>, reset: bool)
      modifies this
      ensures editorFields == (if fields.Some? then fields.value else base)
      ensures unusedEditorFields == Unused(if reset then map[] else old(unusedEditorFields), editorFields, editorFields.Keys)
      ensures message == old(message) && messageSaving == old(messageSaving) && dirty == old(dirty)
      ensures messageHistory == old(messageHistory) && selectedHistory == old(selectedHistory)
    {
      editorFields := if fields.Some? then fields.value else base;
      unusedEditorFields := UnusedToggles(editorFields, if reset then map[] else unusedEditorFields);
    }

    /** After a reset, a field is shown exactly when the message enables it. */
    lemma ShowFieldAfterReset(fieldId: string)
      requires unusedEditorFields == Unused(map[], editorFields, editorFields.Keys)
      ensures ShowField(fieldId) <==> Flag(editorFields, fieldId)
    {
    }

    /** `toggleUseEditorField`: exactly one toggle flips; a missing toggle counts as off */
    method ToggleUseEditorField(fieldId: string)
      modifies this
      ensures unusedEditorFields == old(unusedEditorFields)[fieldId := !Flag(old(unusedEditorFields), fieldId)]
      ensures editorFields == old(editorFields) && message == old(message) && messageSaving == old(messageSaving)
      ensures dirty == old(dirty) && messageHistory == old(messageHistory) && selectedHistory == old(selectedHistory)
    {
      unusedEditorFields := unusedEditorFields[fieldId := !Flag(unusedEditorFields, fieldId)];
    }

    /** Toggling a field the message does not enable shows or hides it; an enabled field stays shown. */
    lemma ToggleFlipsVisibility(before: map<string, bool>, fieldId: string)
      requires unusedEditorFields == before[fieldId := !Flag(before, fieldId)]
      ensures Flag(editorFields, fieldId) ==> ShowField(fieldId)
      ensures !Flag(editorFields, fieldId) ==> (ShowField(fieldId) <==> !Flag(before, fieldId))
      ensures forall f :: f != fieldId ==> (ShowField(f) <==> Flag(editorFields, f) || Flag(before, f))
    {
    }

    /** `sortCharts` */
    method SortCharts()
      modifies this
      ensures message == old(message).(charts := SortedCharts(old(message).charts))
      ensures editorFields == old(editorFields) && unusedEditorFields == old(unusedEditorFields)
      ensures messageSaving == old(messageSaving) && dirty == old(dirty)
      ensures messageHistory == old(messageHistory) && selectedHistory == old(selectedHistory)
    {
      if message.charts.Some? {
        message := message.(charts := SortedCharts(message.charts));
      }
    }

    /** `deleteReference`: the first occurrence is removed and the form marked dirty, if there is one */
    method DeleteReference(ref: Reference)
      modifies this
      ensures message == old(message).(references := DeleteFirst(old(message).references, ref))
      ensures dirty == (old(dirty) || ref in old(message).references)
      ensures editorFields == old(editorFields) && unusedEditorFields == old(unusedEditorFields)
      ensures messageSaving == old(messageSaving)
      ensures messageHistory == old(messageHistory) && selectedHistory == old(selectedHistory)
    {
      if FirstIndex(message.references, ref) > -1 {
        var i := FirstIndex(message.references, ref);
        message := message.(references := message.references[..i] + message.references[i + 1..]);
        dirty := true;
      }
    }

    /** `deleteDateInterval`: as `deleteReference`; an unset list has nothing to delete */
    method DeleteDateInterval(di: DateInterval)
      modifies this
      ensures old(message).dateIntervals.None? ==> message == old(message) && dirty == old(dirty)
      ensures old(message).dateIntervals.Some? ==>
        && message == old(message).(dateIntervals := Some(DeleteFirst(old(message).dateIntervals.value, di)))
        && dirty == (old(dirty) || di in old(message).dateIntervals.value)
      ensures editorFields == old(editorFields) && unusedEditorFields == old(unusedEditorFields)
      ensures messageSaving == old(messageSaving)
      ensures messageHistory == old(messageHistory) && selectedHistory == old(selectedHistory)
    {
      if message.dateIntervals.Some? && FirstIndex(message.dateIntervals.value, di) > -1 {
        var list := message.dateIntervals.value;
        var i := FirstIndex(list, di);
        message := message.(dateIntervals := Some(list[..i] + list[i + 1..]));
        dirty := true;
      }
    }

    /** `saveMessage`: the checks in order, then the save button is locked and the message submitted */
    method SaveMessage() returns (outcome: SaveOutcome)
      modifies this
      ensures outcome == SaveCheck(message)
      ensures messageSaving == (old(messageSaving) || outcome == Submitted)
      ensures message == old(message) && editorFields == old(editorFields)
      ensures unusedEditorFields == old(unusedEditorFields) && dirty == old(dirty)
      ensures messageHistory == old(messageHistory) && selectedHistory == old(selectedHistory)
    {
      var msg := message;
      if !Present(msg.mainType) || !Present(msg.msgType) {
        return MissingType;
      } else if msg.messageSeries.None? {
        return MissingSeries;
      }
      if msg.dateIntervals.Some? {
        var intervals := msg.dateIntervals.value;
        var x := 0;
        while x < |intervals|
          invariant 0 <= x <= |intervals|
          invariant forall k :: 0 <= k < x ==> IntervalOk(intervals[k])
        {
          var di := intervals[x];
          if DateSet(di.toDate) && !DateSet(di.fromDate) {
            return MissingFromDate;
          }
          x := x + 1;
        }
      }
      messageSaving := true;
      return Submitted;
    }

    /** `descFieldDefined` */
    method DescFieldDefined(field: DescField) returns (defined: bool)
      ensures defined == AnyDescHas(message.descs, field)
    {
      var x := 0;
      while x < |message.descs|
        invariant 0 <= x <= |message.descs|
        invariant forall k :: 0 <= k < x ==> !Present(FieldOf(message.descs[k], field))
      {
        var desc := message.descs[x];
        if Present(FieldOf(desc, field)) {
          return true;
        }
        x := x + 1;
      }
      return false;
    }

    /** `canPublish`: the missing fields, and whether there are none */
    method CanPublish() returns (ok: bool, error: string)
      ensures error == MissingFields(message) && ok == (error == "")
    {
      var msg := message;
      error := "";
      if !Present(msg.msgType) {
        error := error + "<li>Type</li>";
      }
      if msg.messageSeries.None? {
        error := error + "<li>Message Series</li>";
      }
      var hasSubject := DescFieldDefined(Subject);
      if !hasSubject {
        error := error + "<li>Subject</li>";
      }
      var hasTitle := DescFieldDefined(Title);
      if !hasTitle {
        error := error + "<li>Title</li>";
      }
      ok := |error| == 0;
    }

    /** `verify` */
    method Verify() returns (action: Action)
      ensures action == VerifyAction(message)
    {
      if message.status != Draft {
        return Rejected("Only draft messages can be verified");
      }
      var ok, error := CanPublish();
      if !ok {
        return Rejected("Missing fields:\n<ul>" + error + "</ul>");
      }
      return Requested(Verified);
    }

    /** `publish` */
    method Publish() returns (action: Action)
      ensures action == PublishAction(message)
    {
      if message.status != Verified {
        return Rejected("Only verified draft messages can be published");
      }
      var ok, error := CanPublish();
      if !ok {
        return Rejected("Missing fields:\n<ul>" + error + "</ul>");
      }
      return Requested(Published);
    }

    /** `delete` */
    method Delete() returns (action: Action)
      ensures action == DeleteAction(message)
    {
      if message.status != Draft && message.status != Verified {
        return Rejected("Only draft and verified messages can be deleted");
      }
      return Requested(Deleted);
    }

    /** `cancel` */
    method Cancel() returns (action: Action)
      ensures action == CancelAction(message)
    {
      if message.status != Published {
        return Rejected("Only published messages can be cancelled");
      }
      return Requested(Cancelled);
    }

    /** `updateSelection`: the selected history entries, newest selection first, by `unshift` */
    method UpdateSelection()
      modifies this
      ensures selectedHistory == Reverse(SelectedEntries(messageHistory))
      ensures messageHistory == old(messageHistory) && message == old(message)
      ensures editorFields == old(editorFields) && unusedEditorFields == old(unusedEditorFields)
      ensures messageSaving == old(messageSaving) && dirty == old(dirty)
    {
      var selected := CollectSelected(messageHistory);
      selectedHistory := selected;
    }
  }
}
