/**
 * The subject form editor: a two-step form whose first step holds the subject fields and
 * whose second step edits the list of topics and their resources; submitting builds the
 * payload sent to the server.
 */
module CourseForm {
  import opened Wrappers
  import opened Decimal
  import opened Client
  import Display

  const DefaultColor: string := "bg-orange-100"
  const DefaultTopicMinutes: int := 30

  /** A topic's minutes field: a number, or the text typed into the input. */
  datatype MinutesField = Num(n: int) | Text(s: string)

  /** A topic as the form edits it. */
  datatype FormTopic = FormTopic(id: int, title: string, isCompleted: bool, targetMinutes: MinutesField, resources: seq<Resource>)

  /** The subject fields of step 1, all as entered text. */
  datatype FormData = FormData(title: string, targetHours: string, targetMinutes: string, dueDate: string, color: string)

  /** `parseInt(targetMinutes)`; None is NaN. */
  function ParseMinutes(f: MinutesField): Option<int> {
    match f
    case Num(n) => Some(n)
    case Text(s) => ParseInt(s)
  }

  // ---------------------------------------------------------------------------
  // Topic-list operations
  // ---------------------------------------------------------------------------

  /** `topics.filter(t => t.id !== id)`. */
  function RemoveTopicFrom(ts: seq<FormTopic>, id: int): (r: seq<FormTopic>)
    ensures |r| <= |ts|
    ensures forall i :: 0 <= i < |r| ==> r[i].id != id
    decreases |ts|
  {
    if ts == [] then []
    else RemoveTopicFrom(ts[..|ts| - 1], id) + (if ts[|ts| - 1].id == id then [] else [ts[|ts| - 1]])
  }

  /** Exactly the topics with another id are kept. */
  lemma {:induction false} RemoveTopicMembers(ts: seq<FormTopic>, id: int)
    ensures forall t :: t in RemoveTopicFrom(ts, id) <==> t in ts && t.id != id
    decreases |ts|
  {
    if ts != [] {
      var prefix, last := ts[..|ts| - 1], ts[|ts| - 1];
      RemoveTopicMembers(prefix, id);
      assert ts == prefix + [last];
      var kept := if last.id == id then [] else [last];
      assert RemoveTopicFrom(ts, id) == RemoveTopicFrom(prefix, id) + kept;
      forall t ensures t in RemoveTopicFrom(ts, id) <==> t in ts && t.id != id {
        assert t in RemoveTopicFrom(prefix, id) + kept <==> t in RemoveTopicFrom(prefix, id) || t in kept;
        assert t in ts <==> t in prefix || t == last;
      }
    }
  }

  /** Removal distributes over concatenation, so the kept topics stay in their order. */
  lemma {:induction false} RemoveTopicDistributes(a: seq<FormTopic>, b: seq<FormTopic>, id: int)
    ensures RemoveTopicFrom(a + b, id) == RemoveTopicFrom(a, id) + RemoveTopicFrom(b, id)
    decreases |b|
  {
    if b == [] {
      assert a + b == a;
    } else {
      var b', last := b[..|b| - 1], b[|b| - 1];
      var kept := if last.id == id then [] else [last];
      assert (a + b)[..|a + b| - 1] == a + b';
      assert (a + b)[|a + b| - 1] == last;
      calc {
        RemoveTopicFrom(a + b, id);
        RemoveTopicFrom(a + b', id) + kept;
        { RemoveTopicDistributes(a, b', id); }
        RemoveTopicFrom(a, id) + RemoveTopicFrom(b', id) + kept;
        RemoveTopicFrom(a, id) + (RemoveTopicFrom(b', id) + kept);
      }
    }
  }

  /** A list without the id is left as it is. */
  lemma {:induction false} RemoveAbsentTopic(ts: seq<FormTopic>, id: int)
    requires forall i :: 0 <= i < |ts| ==> ts[i].id != id
    ensures RemoveTopicFrom(ts, id) == ts
  {
    if ts != [] {
      var prefix, last := ts[..|ts| - 1], ts[|ts| - 1];
      assert forall i :: 0 <= i < |prefix| ==> prefix[i] == ts[i];
      RemoveAbsentTopic(prefix, id);
      assert last.id != id;
      calc {
        RemoveTopicFrom(ts, id);
        RemoveTopicFrom(prefix, id) + [last];
        prefix + [last];
        { assert prefix + [last] == ts; }
        ts;
      }
    }
  }

  /** The topic with one more resource at the end. */
  function WithResource(t: FormTopic, r: Resource): (u: FormTopic)
    ensures u.resources == t.resources + [r]
    ensures u == t.(resources := u.resources)
  {
    t.(resources := t.resources + [r])
  }

  /** `addResource`: the matching topics gain the resource at the end; the others are untouched. */
  function AddResourceTo(ts: seq<FormTopic>, id: int, r: Resource): (u: seq<FormTopic>)
    ensures |u| == |ts|
    ensures forall i :: 0 <= i < |ts| ==> u[i] == if ts[i].id == id then WithResource(ts[i], r) else ts[i]
  {
    seq(|ts|, i requires 0 <= i < |ts| => if ts[i].id == id then WithResource(ts[i], r) else ts[i])
  }

  /** The number of resources over all topics. */
  function ResourceCount(ts: seq<FormTopic>): nat
    decreases |ts|
  {
    if ts == [] then 0 else ResourceCount(ts[..|ts| - 1]) + |ts[|ts| - 1].resources|
  }

  /** With ids unique, adding to an existing topic adds exactly one resource overall. */
  lemma {:induction false} AddResourceCount(ts: seq<FormTopic>, id: int, r: Resource)
    ensures ResourceCount(AddResourceTo(ts, id, r)) == ResourceCount(ts) + CountId(ts, id)
    decreases |ts|
  {
    if ts != [] {
      var prefix := ts[..|ts| - 1];
      assert AddResourceTo(ts, id, r)[..|ts| - 1] == AddResourceTo(prefix, id, r);
      AddResourceCount(prefix, id, r);
    }
  }

  /** How many topics carry the id. */
  function CountId(ts: seq<FormTopic>, id: int): nat
    decreases |ts|
  {
    if ts == [] then 0 else CountId(ts[..|ts| - 1], id) + (if ts[|ts| - 1].id == id then 1 else 0)
  }

  /** The minutes input of the topic with the id takes the typed text. */
  function SetTopicMinutes(ts: seq<FormTopic>, id: int, typed: string): (u: seq<FormTopic>)
    ensures |u| == |ts|
    ensures forall i :: 0 <= i < |ts| ==> u[i] == if ts[i].id == id then ts[i].(targetMinutes := Text(typed)) else ts[i]
  {
    seq(|ts|, i requires 0 <= i < |ts| => if ts[i].id == id then ts[i].(targetMinutes := Text(typed)) else ts[i])
  }

  // ---------------------------------------------------------------------------
  // Edit initialisation
  // ---------------------------------------------------------------------------

  /** A saved topic as the form edits it: a missing or zero target reads as 30. */
  function EditTopic(t: Topic): (f: FormTopic)
    ensures f.targetMinutes == Num(if t.targetMinutes == 0 then DefaultTopicMinutes else t.targetMinutes)
    ensures f.id == t.id && f.title == t.title && f.isCompleted == t.isCompleted && f.resources == t.resources
  {
    FormTopic(t.id, t.title, t.isCompleted, Num(if t.targetMinutes == 0 then DefaultTopicMinutes else t.targetMinutes), t.resources)
  }

  /**
   * The step-1 fields of a subject being edited: its target split into whole hours and
   * rounded minutes (both blank when both are zero), due date and colour defaulted.
   */
  function EditFormData(c: Course): (f: FormData)
    ensures f.title == c.title
    ensures f.dueDate == if c.dueDate.Some? then c.dueDate.value else ""
    ensures f.color == if c.color == "" then DefaultColor else c.color
  {
    var d := Display.SplitHours(c.targetHours);
    var blank := d.hours == 0 && d.minutes == 0;
    FormData(c.title,
             if blank then "" else IntToString(d.hours),
             if blank then "" else NatToString(d.minutes),
             if c.dueDate.Some? then c.dueDate.value else "",
             if c.color == "" then DefaultColor else c.color)
  }

  /**
   * The hour and minute fields read back as the target rounded to the minute; both are blank
   * exactly when a non-negative target rounds to zero minutes.
   */
  lemma EditFieldsMeaning(c: Course)
    requires c.targetHours >= 0.0
    ensures var f := EditFormData(c);
      (f.targetHours == "" && f.targetMinutes == "") <==> Display.Round(60.0 * c.targetHours) == 0
    ensures var f := EditFormData(c);
      f.targetHours != "" ==>
        ParseInt(f.targetHours).Some? && ParseInt(f.targetMinutes).Some?
        && 60 * ParseInt(f.targetHours).value + ParseInt(f.targetMinutes).value == Display.Round(60.0 * c.targetHours)
  {
    var d := Display.SplitHours(c.targetHours);
    if !(d.hours == 0 && d.minutes == 0) {
      ParseIntOfIntToString(d.hours);
      ParseIntOfIntToString(d.minutes);
    }
  }

  // ---------------------------------------------------------------------------
  // The payload
  // ---------------------------------------------------------------------------

  datatype PayloadTopic = PayloadTopic(title: string, isCompleted: bool, targetMinutes: int, resources: seq<Resource>)

  /**
   * What the form submits: the id when editing, the step-1 fields (the typed minutes field
   * travels along unused), the computed target hours, the due date or null, and the topics.
   */
  datatype Payload = Payload(
    id: Option<int>,
    title: string,
    targetMinutes: string,
    color: string,
    targetHours: real,
    dueDate: Option<string>,
    topics: seq<PayloadTopic>)

  /** `parseInt(t.targetMinutes) || 0`: what a topic adds to the total. */
  function CountedMinutes(f: MinutesField): int {
    var p := ParseMinutes(f);
    if p.Some? then p.value else 0
  }

  /** `parseInt(t.targetMinutes) || 30`: what a topic is saved with. */
  function SavedMinutes(f: MinutesField): (m: int)
    ensures m != 0
  {
    var p := ParseMinutes(f);
    if p.Some? && p.value != 0 then p.value else DefaultTopicMinutes
  }

  /** A field that is unparsable or zero: counted as 0, saved as 30. */
  predicate Defaulted(f: MinutesField) {
    ParseMinutes(f).None? || ParseMinutes(f).value == 0
  }

  lemma CountedVersusSaved(f: MinutesField)
    ensures SavedMinutes(f) == CountedMinutes(f) + if Defaulted(f) then DefaultTopicMinutes else 0
  {
  }

  function PayloadTopicOf(t: FormTopic): PayloadTopic {
    PayloadTopic(t.title, t.isCompleted, SavedMinutes(t.targetMinutes), t.resources)
  }

  /** `topics.map(...)` of the payload, in order. */
  function PayloadTopics(ts: seq<FormTopic>): (r: seq<PayloadTopic>)
    ensures |r| == |ts|
    ensures forall i :: 0 <= i < |ts| ==> r[i] == PayloadTopicOf(ts[i])
    decreases |ts|
  {
    if ts == [] then [] else PayloadTopics(ts[..|ts| - 1]) + [PayloadTopicOf(ts[|ts| - 1])]
  }

  /** `topics.reduce((acc, t) => acc + (parseInt(t.targetMinutes) || 0), 0)`. */
  function TotalMinutes(ts: seq<FormTopic>): int
    decreases |ts|
  {
    if ts == [] then 0 else TotalMinutes(ts[..|ts| - 1]) + CountedMinutes(ts[|ts| - 1].targetMinutes)
  }

  /** Sum of the saved topic targets. */
  function SavedTotal(ts: seq<PayloadTopic>): int
    decreases |ts|
  {
    if ts == [] then 0 else SavedTotal(ts[..|ts| - 1]) + ts[|ts| - 1].targetMinutes
  }

  /** How many topics have a defaulted field. */
  function DefaultedCount(ts: seq<FormTopic>): nat
    decreases |ts|
  {
    if ts == [] then 0 else DefaultedCount(ts[..|ts| - 1]) + (if Defaulted(ts[|ts| - 1].targetMinutes) then 1 else 0)
  }

  /** `handleSubmit`'s payload, as written. */
  function SubmitPayload(editingId: Option<int>, f: FormData, ts: seq<FormTopic>): (p: Payload)
    ensures p.id == editingId && p.title == f.title && p.color == f.color
    ensures p.dueDate.None? <==> f.dueDate == ""
    ensures p.dueDate.Some? ==> p.dueDate.value == f.dueDate
    ensures p.topics == PayloadTopics(ts)
  {
    Payload(editingId, f.title, f.targetMinutes, f.color, TotalMinutes(ts) as real / 60.0,
            if f.dueDate != "" then Some(f.dueDate) else None, PayloadTopics(ts))
  }

  lemma {:induction false} TotalsGap(ts: seq<FormTopic>)
    ensures SavedTotal(PayloadTopics(ts)) == TotalMinutes(ts) + DefaultTopicMinutes * DefaultedCount(ts)
    decreases |ts|
  {
    if ts != [] {
      var prefix := ts[..|ts| - 1];
      TotalsGap(prefix);
      CountedVersusSaved(ts[|ts| - 1].targetMinutes);
      assert PayloadTopics(ts)[..|ts| - 1] == PayloadTopics(prefix);
    }
  }

  /**
   * As written the submitted target hours miss 30 minutes for every topic whose field is
   * unparsable or zero, although that topic is saved with 30 minutes.
   */
  lemma SubmittedHoursGap(editingId: Option<int>, f: FormData, ts: seq<FormTopic>)
    ensures var p := SubmitPayload(editingId, f, ts);
      60.0 * p.targetHours + (DefaultTopicMinutes * DefaultedCount(ts)) as real == SavedTotal(p.topics) as real
  {
    TotalsGap(ts);
  }

  /** A topic whose minutes input was cleared: target hours 0, but the topic saved with 30 minutes. */
  lemma ClearedMinutesDisagree(f: FormData, r: seq<Resource>)
    ensures var p := SubmitPayload(None, f, [FormTopic(1, "Intro", false, Text(""), r)]);
      p.targetHours == 0.0 && p.topics[0].targetMinutes == DefaultTopicMinutes
  {
    var ts := [FormTopic(1, "Intro", false, Text(""), r)];
    assert ts[..0] == [];
    assert ParseInt("") == None by {
      assert SpacePrefixLength("") == 0;
      assert DigitPrefixLength("") == 0;
    }
    assert CountedMinutes(Text("")) == 0;
    assert TotalMinutes(ts) == 0;
  }

  /** The payload with the target hours summed from the minutes the topics are saved with. */
  function SubmitPayloadConsistent(editingId: Option<int>, f: FormData, ts: seq<FormTopic>): (p: Payload)
    ensures p.id == editingId && p.title == f.title && p.color == f.color
    ensures p.dueDate.None? <==> f.dueDate == ""
    ensures p.dueDate.Some? ==> p.dueDate.value == f.dueDate
    ensures p.topics == PayloadTopics(ts)
  {
    var topics := PayloadTopics(ts);
    Payload(editingId, f.title, f.targetMinutes, f.color, SavedTotal(topics) as real / 60.0,
            if f.dueDate != "" then Some(f.dueDate) else None, topics)
  }

  /** The consistent payload's target hours are the saved topics' minutes over 60. */
  lemma ConsistentHoursMatchTopics(editingId: Option<int>, f: FormData, ts: seq<FormTopic>)
    ensures var p := SubmitPayloadConsistent(editingId, f, ts);
      60.0 * p.targetHours == SavedTotal(p.topics) as real
    ensures SubmitPayloadConsistent(editingId, f, ts).targetHours
      == SubmitPayload(editingId, f, ts).targetHours + (DefaultTopicMinutes * DefaultedCount(ts)) as real / 60.0
  {
    TotalsGap(ts);
  }

  // ---------------------------------------------------------------------------
  // The form state
  // ---------------------------------------------------------------------------

  class CourseFormState {
    var step: int
    var formData: FormData
    var topics: seq<FormTopic>
    var newTopic: string
    const editingId: Option<int>

    /** A fresh form, or the form for editing a saved subject. */
    constructor (initial: Option<Course>)
      ensures step == 1 && newTopic == ""
      ensures initial.None? ==>
        formData == FormData("", "", "", "", DefaultColor) && topics == [] && editingId.None?
      ensures initial.Some? ==>
        formData == EditFormData(initial.value) && editingId == Some(initial.value.id)
        && topics == seq(|initial.value.topics|, i requires 0 <= i < |initial.value.topics| => EditTopic(initial.value.topics[i]))
    {
      step := 1;
      newTopic := "";
      if initial.Some? {
        formData := EditFormData(initial.value);
        topics := seq(|initial.value.topics|, i requires 0 <= i < |initial.value.topics| => EditTopic(initial.value.topics[i]));
        editingId := Some(initial.value.id);
      } else {
        formData := FormData("", "", "", "", DefaultColor);
        topics := [];
        editingId := None;
      }
    }

    /** Typing into the new-topic input. */
    method TypeTopic(text: string)
      modifies this
      ensures newTopic == text
      ensures step == old(step) && formData == old(formData) && topics == old(topics)
    {
      newTopic := text;
    }

    /**
     * `addTopic`: a blank title changes nothing; otherwise one new topic (not completed,
     * 30 minutes, no resources, id taken from the clock) is appended and the input cleared.
     */
    method AddTopic(now: int)
      modifies this
      ensures IsBlank(old(newTopic)) ==> topics == old(topics) && newTopic == old(newTopic)
      ensures !IsBlank(old(newTopic)) ==>
        topics == old(topics) + [FormTopic(now, old(newTopic), false, Num(DefaultTopicMinutes), [])] && newTopic == ""
      ensures step == old(step) && formData == old(formData)
    {
      if IsBlank(newTopic) {
        return;
      }
      topics := topics + [FormTopic(now, newTopic, false, Num(DefaultTopicMinutes), [])];
      newTopic := "";
    }

    /** `removeTopic`. */
    method RemoveTopic(id: int)
      modifies this
      ensures topics == RemoveTopicFrom(old(topics), id)
      ensures step == old(step) && formData == old(formData) && newTopic == old(newTopic)
    {
      topics := RemoveTopicFrom(topics, id);
    }

    /** The minutes input of one topic. */
    method EditTopicMinutes(id: int, typed: string)
      modifies this
      ensures topics == SetTopicMinutes(old(topics), id, typed)
      ensures step == old(step) && formData == old(formData) && newTopic == old(newTopic)
    {
      topics := SetTopicMinutes(topics, id, typed);
    }

    /** The "Next" button, disabled while the title is empty. */
    method Next()
      modifies this
      ensures step == if old(formData).title != "" then 2 else old(step)
      ensures formData == old(formData) && topics == old(topics) && newTopic == old(newTopic)
    {
      if formData.title != "" {
        step := 2;
      }
    }

    /** The "Back" button of step 2: `setStep(1)`. */
    method Back()
      modifies this
      ensures step == 1
      ensures formData == old(formData) && topics == old(topics) && newTopic == old(newTopic)
    {
      step := 1;
    }

    /** Typing the subject's title: `setFormData({ ...formData, title })`. */
    method SetTitle(text: string)
      modifies this
      ensures formData == old(formData).(title := text)
      ensures step == old(step) && topics == old(topics) && newTopic == old(newTopic)
    {
      formData := formData.(title := text);
    }

    /** Picking a due date: `setFormData({ ...formData, dueDate: date })`. */
    method SetDueDate(date: string)
      modifies this
      ensures formData == old(formData).(dueDate := date)
      ensures step == old(step) && topics == old(topics) && newTopic == old(newTopic)
    {
      formData := formData.(dueDate := date);
    }

    /** Clicking a colour swatch: `setFormData({ ...formData, color })`. */
    method SetColor(color: string)
      modifies this
      ensures formData == old(formData).(color := color)
      ensures step == old(step) && topics == old(topics) && newTopic == old(newTopic)
    {
      formData := formData.(color := color);
    }

    /**
     * `handleSubmit`: the payload of the current form, with the target hours summed from
     * `parseInt(minutes) || 0` over the topics; the form itself does not change.
     */
    method Submit() returns (p: Payload)
      ensures p == SubmitPayload(editingId, formData, topics)
    {
      p := SubmitPayload(editingId, formData, topics);
    }
  }

  /**
   * The add-resource input under one topic.  The component is declared inside the form's
   * render, so every render of the form mounts it afresh with its initial state.
   */
  class ResourceInput {
    const topicId: int
    var showInput: bool
    var kind: string
    var title: string
    var url: string

    constructor (id: int)
      ensures topicId == id && !showInput && kind == "link" && title == "" && url == ""
    {
      topicId, showInput, kind, title, url := id, false, "link", "", "";
    }

    /** The input as first mounted: closed, empty, a link. */
    predicate Initial()
      reads this
    {
      !showInput && kind == "link" && title == "" && url == ""
    }

    /** A render of the form mounts the input afresh: whatever was typed is gone. */
    method Remount()
      modifies this
      ensures Initial()
    {
      showInput, kind, title, url := false, "link", "", "";
    }

    /** The "Add Resource" button. */
    method Open()
      modifies this
      ensures showInput && kind == old(kind) && title == old(title) && url == old(url)
    {
      showInput := true;
    }

    /** The "Cancel" button: the input closes and keeps what was typed. */
    method Cancel()
      modifies this
      ensures !showInput && kind == old(kind) && title == old(title) && url == old(url)
    {
      showInput := false;
    }

    /** The type selector, "link" or "video". */
    method SetKind(k: string)
      modifies this
      ensures kind == k && showInput == old(showInput) && title == old(title) && url == old(url)
    {
      kind := k;
    }

    /** Typing the resource's title. */
    method SetTitle(text: string)
      modifies this
      ensures title == text && showInput == old(showInput) && kind == old(kind) && url == old(url)
    {
      title := text;
    }

    /** Typing the resource's address. */
    method SetUrl(text: string)
      modifies this
      ensures url == text && showInput == old(showInput) && kind == old(kind) && title == old(title)
    {
      url := text;
    }

    /**
     * `handleAdd`: with both a title and a url the resource is added to the topic; the
     * form's `setTopics` renders the form again, which mounts this input afresh, so it is
     * back to its initial state.  Otherwise nothing happens.
     */
    method HandleAdd(form: CourseFormState)
      modifies this, form
      ensures old(title) != "" && old(url) != "" ==>
        form.topics == AddResourceTo(old(form.topics), topicId, Resource(old(kind), old(title), old(url)))
        && Initial()
      ensures !(old(title) != "" && old(url) != "") ==>
        form.topics == old(form.topics) && showInput == old(showInput) && kind == old(kind)
        && title == old(title) && url == old(url)
      ensures form.step == old(form.step) && form.formData == old(form.formData) && form.newTopic == old(form.newTopic)
    {
      if title != "" && url != "" {
        form.topics := AddResourceTo(form.topics, topicId, Resource(kind, title, url));
        Remount();
      }
    }
  }
}
