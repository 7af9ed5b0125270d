/** The profile manager: the saved profile record, the documents uploaded
    beside it, the profile photo, and the profile text put in front of
    every message sent to the chat function. */
module Profile {
  import opened Base
  import opened Text

  // ---------------------------------------------------------------------
  // The profile record
  // ---------------------------------------------------------------------

  /** The twelve free-text fields of the profile form, by property name. */
  datatype Field =
    | PreferredName | AgeRange | Pronouns | Diagnoses | Medications | TreatmentHistory
    | CustomCommunication | Triggers | TherapyGoals | CopingStrategies | CurrentStressors
    | TherapistInfo

  /** The profile object. A text field missing from `text` was never set; a
      profile read back from storage may also hold empty strings, which
      every reader treats as missing. */
  datatype UserProfile = UserProfile(
    text: map<Field, string>,
    communicationStyle: Option<seq<string>>,
    profilePhoto: Option<string>)

  /** `profile[f]` is truthy. */
  predicate Has(p: UserProfile, f: Field) {
    f in p.text && p.text[f] != ""
  }

  /** An uploaded document as kept in `documentContents`. The id comes from
      the clock and a random number and is a parameter here. */
  datatype Document = Document(name: string, size: int, mime: string, content: string, id: int)

  /** The manager's state: `profile`, `profilePhoto`, `documentContents`. */
  datatype ProfileState = ProfileState(
    profile: Option<UserProfile>,
    photo: Option<string>,
    documents: seq<Document>)

  // ---------------------------------------------------------------------
  // Saving and restoring the form
  // ---------------------------------------------------------------------

  /** The ticked communication-style boxes, in the order the boxes appear in
      the form (`boxes`), skipping boxes with an empty value. */
  function Styles(boxes: seq<string>, ticked: set<string>): (r: seq<string>)
    ensures forall s :: s in r <==> s in boxes && s in ticked && s != ""
    ensures |r| <= |boxes|
  {
    if |boxes| == 0 then []
    else
      var b := boxes[|boxes| - 1];
      var prev := Styles(boxes[..|boxes| - 1], ticked);
      assert forall s :: s in boxes <==> s in boxes[..|boxes| - 1] || s == b;
      if b in ticked && b != "" then prev + [b] else prev
  }

  /** The style list is read box by box: the list for two runs of boxes is
      the list for the first run followed by the list for the second, and a
      single box contributes itself exactly when it is ticked and non-empty.
      So the list keeps form order and holds a box once per occurrence. */
  lemma {:induction false} StylesAppend(a: seq<string>, b: seq<string>, ticked: set<string>)
    ensures Styles(a + b, ticked) == Styles(a, ticked) + Styles(b, ticked)
    ensures forall x :: Styles([x], ticked) == if x in ticked && x != "" then [x] else []
    decreases |b|
  {
    forall x ensures Styles([x], ticked) == if x in ticked && x != "" then [x] else [] {
      assert [x][..0] == [];
    }
    if |b| == 0 {
      assert a + b == a;
    } else {
      var b' := b[..|b| - 1];
      assert (a + b)[..|a + b| - 1] == a + b';
      assert (a + b)[|a + b| - 1] == b[|b| - 1];
      StylesAppend(a, b', ticked);
    }
  }

  /** Some box with a non-empty value is ticked exactly when the style list
      is non-empty. */
  lemma StylesNonEmpty(boxes: seq<string>, ticked: set<string>)
    ensures |Styles(boxes, ticked)| > 0 <==> exists s :: s in boxes && s in ticked && s != ""
  {
    var st := Styles(boxes, ticked);
    if |st| > 0 {
      assert st[0] in st;
    }
  }

  /** The trimmed form values that are not empty. */
  function TrimmedValues(form: map<Field, string>): (m: map<Field, string>)
    ensures forall f :: f in m <==> f in form && Trim(form[f]) != ""
    ensures forall f :: f in m ==> m[f] == Trim(form[f])
  {
    map f | f in form && Trim(form[f]) != "" :: Trim(form[f])
  }

  /** `saveProfile`: `form` holds the raw value of every form element that
      exists and has a non-empty value; `ticked` are the checked boxes and
      `photo` the photo in memory. */
  function SaveProfile(form: map<Field, string>, boxes: seq<string>, ticked: set<string>,
                       photo: Option<string>): (p: UserProfile)
    ensures forall f :: Has(p, f) <==> f in form && Trim(form[f]) != ""
    ensures forall f :: f in p.text ==> f in form && p.text[f] == Trim(form[f]) != ""
    ensures p.communicationStyle.Some? <==> exists s :: s in boxes && s in ticked && s != ""
    ensures p.communicationStyle.Some? ==> p.communicationStyle.value == Styles(boxes, ticked)
    ensures Truthy(photo) ==> p.profilePhoto == photo
    ensures !Truthy(photo) ==> p.profilePhoto.None?
  {
    var styles := Styles(boxes, ticked);
    StylesNonEmpty(boxes, ticked);
    UserProfile(
      TrimmedValues(form),
      if |styles| > 0 then Some(styles) else None,
      if Truthy(photo) then photo else None)
  }

  /** `populateProfileForm` on a fresh form: the values written into the
      text fields. Each checkbox is found by its id, which in the form
      equals its value. */
  function PopulateForm(p: UserProfile): (form: map<Field, string>)
    ensures forall f :: f in form <==> Has(p, f)
  {
    map f | f in p.text && p.text[f] != "" :: p.text[f]
  }

  /** The boxes `populateProfileForm` ticks. */
  function PopulateTicks(p: UserProfile): (ticked: set<string>)
    ensures forall s :: s in ticked <==> p.communicationStyle.Some? && s in p.communicationStyle.value
  {
    if p.communicationStyle.Some? then set s | s in p.communicationStyle.value else {}
  }

  /** Ticking the saved styles again and re-reading them gives the same list. */
  lemma {:induction false} StylesStable(boxes: seq<string>, ticked: set<string>)
    ensures Styles(boxes, set s | s in Styles(boxes, ticked)) == Styles(boxes, ticked)
    decreases |boxes|
  {
    if |boxes| > 0 {
      var init := boxes[..|boxes| - 1];
      var again := set s | s in Styles(boxes, ticked);
      var before := set s | s in Styles(init, ticked);
      assert Styles(init, again) == Styles(init, before) by {
        StylesAgree(init, again, before);
      }
      StylesStable(init, ticked);
    }
  }

  /** `Styles` only looks at the ticks of boxes that are in the form. */
  lemma {:induction false} StylesAgree(boxes: seq<string>, t1: set<string>, t2: set<string>)
    requires forall s :: s in boxes && s != "" ==> (s in t1 <==> s in t2)
    ensures Styles(boxes, t1) == Styles(boxes, t2)
    decreases |boxes|
  {
    if |boxes| > 0 {
      StylesAgree(boxes[..|boxes| - 1], t1, t2);
    }
  }

  /** Every stored text value is non-empty and trimmed, as after a save. */
  predicate CleanText(p: UserProfile) {
    forall f :: f in p.text ==> p.text[f] != "" && Trim(p.text[f]) == p.text[f]
  }

  lemma SavedKeys(p: UserProfile, boxes: seq<string>, ticked: set<string>, photo: Option<string>)
    requires CleanText(p)
    ensures forall f :: f in SaveProfile(PopulateForm(p), boxes, ticked, photo).text <==> f in p.text
  {
    var form := PopulateForm(p);
    var q := SaveProfile(form, boxes, ticked, photo);
    forall f | f in q.text ensures f in p.text {
      assert Has(q, f);
      assert f in form;
    }
    forall f | f in p.text ensures f in q.text {
      assert Has(p, f) && form[f] == p.text[f];
      assert Trim(form[f]) == p.text[f];
    }
  }

  lemma SavedValues(p: UserProfile, boxes: seq<string>, ticked: set<string>, photo: Option<string>)
    requires CleanText(p)
    ensures forall f :: f in SaveProfile(PopulateForm(p), boxes, ticked, photo).text ==>
                          f in p.text && SaveProfile(PopulateForm(p), boxes, ticked, photo).text[f] == p.text[f]
  {
  }

  /** Re-saving the written-back text fields of a profile whose values are
      non-empty and already trimmed gives the same fields. */
  lemma SavedTextStable(p: UserProfile, boxes: seq<string>, ticked: set<string>, photo: Option<string>)
    requires CleanText(p)
    ensures SaveProfile(PopulateForm(p), boxes, ticked, photo).text == p.text
  {
    SavedKeys(p, boxes, ticked, photo);
    SavedValues(p, boxes, ticked, photo);
    SameMap(SaveProfile(PopulateForm(p), boxes, ticked, photo).text, p.text);
  }

  lemma SameMap<K, V>(m1: map<K, V>, m2: map<K, V>)
    requires forall k :: k in m1 <==> k in m2
    requires forall k :: k in m1 ==> m1[k] == m2[k]
    ensures m1 == m2
  {
    assert m1.Keys == m2.Keys;
  }

  /** Loading a saved profile into the form and saving it again gives back
      the same profile: trimming and filtering are idempotent. */
  lemma SaveRestoreRoundTrip(form: map<Field, string>, boxes: seq<string>, ticked: set<string>,
                             photo: Option<string>)
    ensures var p := SaveProfile(form, boxes, ticked, photo);
            SaveProfile(PopulateForm(p), boxes, PopulateTicks(p), p.profilePhoto) == p
  {
    var p := SaveProfile(form, boxes, ticked, photo);
    var q := SaveProfile(PopulateForm(p), boxes, PopulateTicks(p), p.profilePhoto);
    assert CleanText(p) by {
      forall f | f in p.text ensures p.text[f] != "" && Trim(p.text[f]) == p.text[f] {
        TrimIdempotent(form[f]);
      }
    }
    SavedTextStable(p, boxes, PopulateTicks(p), p.profilePhoto);
    if p.communicationStyle.Some? {
      StylesStable(boxes, ticked);
    }
  }

  // ---------------------------------------------------------------------
  // The contextual message
  // ---------------------------------------------------------------------

  /** One line of the profile text. */
  datatype Line =
    | FieldLine(field: Field, value: string)
    | DocumentsHeading
    | DocumentEntry(name: string, content: string)
    | StylesLine(styles: seq<string>)

  /** The age range is never rendered into the contextual message. */
  predicate Renderable(l: Line) {
    !(l.FieldLine? && l.field == AgeRange)
  }

  function Label(f: Field): string
    requires f != AgeRange
  {
    match f
    case PreferredName => "- Call me: "
    case Pronouns => "- Pronouns: "
    case Diagnoses => "- Mental health conditions: "
    case Medications => "- Current medications: "
    case TreatmentHistory => "- Treatment background: "
    case CustomCommunication => "- Custom communication instructions: "
    case Triggers => "- Sensitive topics: "
    case TherapyGoals => "- Current therapy goals: "
    case CopingStrategies => "- Effective coping strategies: "
    case CurrentStressors => "- Current stressors: "
    case TherapistInfo => "- Therapist information: "
  }

  /** One line of the profile text: never empty, always ending in a line
      break. */
  function Render(l: Line): (r: string)
    requires Renderable(l)
    ensures |r| > 0 && r[|r| - 1] == '\n'
  {
    match l
    case FieldLine(f, v) => Label(f) + v + "\n"
    case DocumentsHeading => "- Clinical Documentation:\n"
    case DocumentEntry(name, content) => "  * " + name + ":\n" + content + "\n\n"
    case StylesLine(styles) => "- Communication preferences: " + Join(styles, ", ") + "\n"
  }

  /** The rendered lines, one string each. */
  function RenderEach(ls: seq<Line>): (r: seq<string>)
    requires forall i :: 0 <= i < |ls| ==> Renderable(ls[i])
    ensures |r| == |ls| && forall i :: 0 <= i < |ls| ==> r[i] == Render(ls[i])
  {
    seq(|ls|, i requires 0 <= i < |ls| => Render(ls[i]))
  }

  /** Where a line sits in the rendered text: fields in the order the
      builder tests them, the documents block between diagnoses and
      medications, the style line between treatment history and the custom
      instructions. */
  function Slot(l: Line): nat {
    match l
    case FieldLine(f, _) => FieldSlot(f)
    case DocumentsHeading => 3
    case DocumentEntry(_, _) => 3
    case StylesLine(_) => 6
  }

  function FieldSlot(f: Field): nat {
    match f
    case PreferredName => 0
    case Pronouns => 1
    case Diagnoses => 2
    case Medications => 4
    case TreatmentHistory => 5
    case CustomCommunication => 7
    case Triggers => 8
    case TherapyGoals => 9
    case CopingStrategies => 10
    case CurrentStressors => 11
    case TherapistInfo => 12
    case AgeRange => 13
  }

  /** Lines are in slot order, and only the documents block takes more than
      one line per slot. */
  predicate InSlotOrder(ls: seq<Line>) {
    forall a, b :: 0 <= a < b < |ls| ==> Slot(ls[a]) < Slot(ls[b]) || Slot(ls[a]) == Slot(ls[b]) == 3
  }

  predicate SlotsWithin(ls: seq<Line>, lo: nat, hi: nat) {
    forall i :: 0 <= i < |ls| ==> lo <= Slot(ls[i]) <= hi
  }

  /** The present ones among the fields `fs`, one line each, in the order
      of `fs`. */
  function FieldLines(p: UserProfile, fs: seq<Field>): (r: seq<Line>)
    ensures |r| <= |fs|
    ensures forall i :: 0 <= i < |r| ==> r[i].FieldLine? && r[i].field in fs
  {
    if |fs| == 0 then []
    else
      var f := fs[0];
      var rest := FieldLines(p, fs[1..]);
      (if Has(p, f) then [FieldLine(f, p.text[f])] else []) + rest
  }

  /** A line is among the lines for `fs` exactly when it renders a present
      field of `fs` with its value. */
  lemma {:induction false} FieldLinesMembers(p: UserProfile, fs: seq<Field>, l: Line)
    ensures l in FieldLines(p, fs) <==>
              l.FieldLine? && l.field in fs && Has(p, l.field) && l.value == p.text[l.field]
    decreases |fs|
  {
    if |fs| > 0 {
      FieldLinesMembers(p, fs[1..], l);
      assert l.FieldLine? ==> (l.field in fs <==> l.field == fs[0] || l.field in fs[1..]);
    }
  }

  predicate FieldsIncrease(fs: seq<Field>) {
    forall a, b :: 0 <= a < b < |fs| ==> FieldSlot(fs[a]) < FieldSlot(fs[b])
  }

  /** In an increasing field list the head has the smallest slot. */
  lemma HeadSlotLeast(fs: seq<Field>, g: Field)
    requires |fs| > 0 && FieldsIncrease(fs) && g in fs[1..]
    ensures FieldSlot(fs[0]) < FieldSlot(g)
  {
    var j :| 0 <= j < |fs[1..]| && fs[1..][j] == g;
    assert fs[j + 1] == g;
  }

  /** A line before an ordered list, in a smaller slot than all of it. */
  lemma OrderedCons(x: Line, rest: seq<Line>)
    requires InSlotOrder(rest)
    requires forall b :: 0 <= b < |rest| ==> Slot(x) < Slot(rest[b])
    ensures InSlotOrder([x] + rest)
  {
    var r := [x] + rest;
    forall a, b | 0 <= a < b < |r| ensures Slot(r[a]) < Slot(r[b]) || Slot(r[a]) == Slot(r[b]) == 3 {
      assert r[b] == rest[b - 1];
      if a > 0 {
        assert r[a] == rest[a - 1];
      }
    }
  }

  lemma IncreaseTail(fs: seq<Field>)
    requires |fs| > 0 && FieldsIncrease(fs)
    ensures FieldsIncrease(fs[1..])
  {
    var tail := fs[1..];
    forall a, b | 0 <= a < b < |tail| ensures FieldSlot(tail[a]) < FieldSlot(tail[b]) {
      assert tail[a] == fs[a + 1] && tail[b] == fs[b + 1];
    }
  }

  lemma {:induction false} FieldLinesOrdered(p: UserProfile, fs: seq<Field>)
    requires FieldsIncrease(fs)
    ensures InSlotOrder(FieldLines(p, fs))
    decreases |fs|
  {
    if |fs| > 0 {
      IncreaseTail(fs);
      FieldLinesOrdered(p, fs[1..]);
      var rest := FieldLines(p, fs[1..]);
      if Has(p, fs[0]) {
        forall b | 0 <= b < |rest| ensures FieldSlot(fs[0]) < Slot(rest[b]) {
          HeadSlotLeast(fs, rest[b].field);
        }
        OrderedCons(FieldLine(fs[0], p.text[fs[0]]), rest);
      }
    }
  }

  lemma FieldLinesWithin(p: UserProfile, fs: seq<Field>, lo: nat, hi: nat)
    requires forall i :: 0 <= i < |fs| ==> lo <= FieldSlot(fs[i]) <= hi
    ensures SlotsWithin(FieldLines(p, fs), lo, hi)
  {
  }

  /** Joining two ordered blocks, the first wholly before the second. */
  lemma OrderedAppend(x: seq<Line>, y: seq<Line>, xlo: nat, xhi: nat, ylo: nat, yhi: nat)
    requires InSlotOrder(x) && InSlotOrder(y)
    requires SlotsWithin(x, xlo, xhi) && SlotsWithin(y, ylo, yhi) && xlo <= xhi < ylo <= yhi
    ensures InSlotOrder(x + y) && SlotsWithin(x + y, xlo, yhi)
  {
    var z := x + y;
    forall a, b | 0 <= a < b < |z| ensures Slot(z[a]) < Slot(z[b]) || Slot(z[a]) == Slot(z[b]) == 3 {
      if b < |x| {
        assert z[a] == x[a] && z[b] == x[b];
      } else if a >= |x| {
        assert z[a] == y[a - |x|] && z[b] == y[b - |x|];
      } else {
        assert z[a] == x[a] && z[b] == y[b - |x|];
      }
    }
    forall i | 0 <= i < |z| ensures xlo <= Slot(z[i]) <= yhi {
      if i < |x| { assert z[i] == x[i]; } else { assert z[i] == y[i - |x|]; }
    }
  }

  /** The documents block: a heading and one entry per document, only when
      there are documents. */
  function DocumentLines(docs: seq<Document>): (r: seq<Line>)
    ensures |docs| == 0 ==> r == []
    ensures |docs| > 0 ==> |r| == |docs| + 1 && r[0] == DocumentsHeading
    ensures forall i :: 0 <= i < |docs| ==> r[i + 1] == DocumentEntry(docs[i].name, docs[i].content)
  {
    if |docs| == 0 then []
    else [DocumentsHeading] + seq(|docs|, i requires 0 <= i < |docs| => DocumentEntry(docs[i].name, docs[i].content))
  }

  function StyleLines(styles: Option<seq<string>>): (r: seq<Line>)
    ensures |r| <= 1
    ensures forall l :: l in r <==> styles.Some? && |styles.value| > 0 && l == StylesLine(styles.value)
  {
    if styles.Some? && |styles.value| > 0 then [StylesLine(styles.value)] else []
  }

  const HeadFields: seq<Field> := [PreferredName, Pronouns, Diagnoses]
  const MiddleFields: seq<Field> := [Medications, TreatmentHistory]
  const TailFields: seq<Field> :=
    [CustomCommunication, Triggers, TherapyGoals, CopingStrategies, CurrentStressors, TherapistInfo]

  /** The lines `buildContextualMessage` emits, in emission order: at most
      one per field and the style line, plus the documents block. */
  function ContextLines(p: UserProfile, docs: seq<Document>): (r: seq<Line>)
    ensures |r| <= |HeadFields| + |MiddleFields| + |TailFields| + 1 + (if |docs| > 0 then |docs| + 1 else 0)
    ensures |docs| > 0 <==> DocumentsHeading in r
  {
    FieldLines(p, HeadFields) + DocumentLines(docs) + FieldLines(p, MiddleFields)
    + StyleLines(p.communicationStyle) + FieldLines(p, TailFields)
  }

  /** The fields the builder renders are all fields but the age range. */
  lemma RenderedFields(f: Field)
    ensures f != AgeRange <==> f in HeadFields || f in MiddleFields || f in TailFields
  {
    match f
    case PreferredName => assert HeadFields[0] == f;
    case Pronouns => assert HeadFields[1] == f;
    case Diagnoses => assert HeadFields[2] == f;
    case Medications => assert MiddleFields[0] == f;
    case TreatmentHistory => assert MiddleFields[1] == f;
    case CustomCommunication => assert TailFields[0] == f;
    case Triggers => assert TailFields[1] == f;
    case TherapyGoals => assert TailFields[2] == f;
    case CopingStrategies => assert TailFields[3] == f;
    case CurrentStressors => assert TailFields[4] == f;
    case TherapistInfo => assert TailFields[5] == f;
    case AgeRange =>
  }

  /** The documents block holds only the heading and document entries. */
  lemma DocumentLinesKinds(docs: seq<Document>, l: Line)
    requires l in DocumentLines(docs)
    ensures l.DocumentsHeading? || l.DocumentEntry?
  {
    var d := DocumentLines(docs);
    var i :| 0 <= i < |d| && d[i] == l;
    if i > 0 { assert d[i] == DocumentEntry(docs[i - 1].name, docs[i - 1].content); }
  }

  /** Every field but the age range has exactly one line when it is present
      and none otherwise. */
  lemma ContextFieldLine(p: UserProfile, docs: seq<Document>, f: Field, v: string)
    ensures FieldLine(f, v) in ContextLines(p, docs) <==> f != AgeRange && Has(p, f) && v == p.text[f]
  {
    RenderedFields(f);
    FieldLinesMembers(p, HeadFields, FieldLine(f, v));
    FieldLinesMembers(p, MiddleFields, FieldLine(f, v));
    FieldLinesMembers(p, TailFields, FieldLine(f, v));
    if FieldLine(f, v) in DocumentLines(docs) {
      DocumentLinesKinds(docs, FieldLine(f, v));
    }
  }

  /** The documents block is there exactly when there are documents, with
      one entry per document. */
  lemma ContextDocuments(p: UserProfile, docs: seq<Document>)
    ensures DocumentsHeading in ContextLines(p, docs) <==> |docs| > 0
    ensures forall i :: 0 <= i < |docs| ==>
                          DocumentEntry(docs[i].name, docs[i].content) in ContextLines(p, docs)
  {
    var d := DocumentLines(docs);
    assert |docs| > 0 ==> d[0] in d;
    forall i | 0 <= i < |docs| ensures DocumentEntry(docs[i].name, docs[i].content) in d {
      assert d[i + 1] == DocumentEntry(docs[i].name, docs[i].content);
    }
  }

  /** The style line is there exactly when a non-empty style list is saved. */
  lemma ContextStyles(p: UserProfile, docs: seq<Document>, styles: seq<string>)
    ensures StylesLine(styles) in ContextLines(p, docs) <==>
              p.communicationStyle == Some(styles) && |styles| > 0
  {
    FieldLinesMembers(p, HeadFields, StylesLine(styles));
    FieldLinesMembers(p, MiddleFields, StylesLine(styles));
    FieldLinesMembers(p, TailFields, StylesLine(styles));
    if StylesLine(styles) in DocumentLines(docs) {
      DocumentLinesKinds(docs, StylesLine(styles));
    }
  }

  lemma DocumentLinesOrdered(docs: seq<Document>)
    ensures InSlotOrder(DocumentLines(docs)) && SlotsWithin(DocumentLines(docs), 3, 3)
  {
    var d := DocumentLines(docs);
    forall i | 0 <= i < |d| ensures Slot(d[i]) == 3 {
      if i > 0 { assert d[i] == DocumentEntry(docs[i - 1].name, docs[i - 1].content); }
    }
  }

  lemma StyleLinesOrdered(styles: Option<seq<string>>)
    ensures InSlotOrder(StyleLines(styles)) && SlotsWithin(StyleLines(styles), 6, 6)
  {
    var s := StyleLines(styles);
    forall i | 0 <= i < |s| ensures Slot(s[i]) == 6 { assert s[i] in s; }
  }

  /** Five ordered blocks in consecutive slot ranges make one ordered list. */
  lemma FiveBlocks(h: seq<Line>, d: seq<Line>, m: seq<Line>, s: seq<Line>, t: seq<Line>)
    requires InSlotOrder(h) && SlotsWithin(h, 0, 2)
    requires InSlotOrder(d) && SlotsWithin(d, 3, 3)
    requires InSlotOrder(m) && SlotsWithin(m, 4, 5)
    requires InSlotOrder(s) && SlotsWithin(s, 6, 6)
    requires InSlotOrder(t) && SlotsWithin(t, 7, 12)
    ensures InSlotOrder(h + d + m + s + t) && SlotsWithin(h + d + m + s + t, 0, 12)
  {
    OrderedAppend(h, d, 0, 2, 3, 3);
    OrderedAppend(h + d, m, 0, 3, 4, 5);
    OrderedAppend(h + d + m, s, 0, 5, 6, 6);
    OrderedAppend(h + d + m + s, t, 0, 6, 7, 12);
  }

  lemma HeadBlock(p: UserProfile)
    ensures InSlotOrder(FieldLines(p, HeadFields)) && SlotsWithin(FieldLines(p, HeadFields), 0, 2)
  {
    FieldLinesOrdered(p, HeadFields);
    FieldLinesWithin(p, HeadFields, 0, 2);
  }

  lemma MiddleBlock(p: UserProfile)
    ensures InSlotOrder(FieldLines(p, MiddleFields)) && SlotsWithin(FieldLines(p, MiddleFields), 4, 5)
  {
    FieldLinesOrdered(p, MiddleFields);
    FieldLinesWithin(p, MiddleFields, 4, 5);
  }

  lemma TailBlock(p: UserProfile)
    ensures InSlotOrder(FieldLines(p, TailFields)) && SlotsWithin(FieldLines(p, TailFields), 7, 12)
  {
    assert forall i :: 0 <= i < |TailFields| ==> FieldSlot(TailFields[i]) == 7 + i;
    FieldLinesOrdered(p, TailFields);
    FieldLinesWithin(p, TailFields, 7, 12);
  }

  /** The lines appear in slot order; no line has the age range's slot. */
  lemma ContextLinesOrdered(p: UserProfile, docs: seq<Document>)
    ensures InSlotOrder(ContextLines(p, docs)) && SlotsWithin(ContextLines(p, docs), 0, 12)
  {
    HeadBlock(p);
    MiddleBlock(p);
    TailBlock(p);
    DocumentLinesOrdered(docs);
    StyleLinesOrdered(p.communicationStyle);
    FiveBlocks(FieldLines(p, HeadFields), DocumentLines(docs), FieldLines(p, MiddleFields),
               StyleLines(p.communicationStyle), FieldLines(p, TailFields));
  }

  /** Every line of the profile text can be rendered. */
  lemma ContextLinesRenderable(p: UserProfile, docs: seq<Document>)
    ensures forall i :: 0 <= i < |ContextLines(p, docs)| ==> Renderable(ContextLines(p, docs)[i])
  {
    ContextLinesOrdered(p, docs);
  }

  const ContextHeading: string := "User Profile Context:\n"
  const MessageLead: string := "\nUser message: "

  /** `buildContextualMessage(message)`: without a profile the message goes
      out unchanged; with one it is preceded by the heading and the
      rendered lines. */
  function BuildContextualMessage(s: ProfileState, message: string): (r: string)
    ensures s.profile.None? ==> r == message
    ensures s.profile.Some? ==> StartsWith(r, ContextHeading) && EndsWith(r, MessageLead + message)
  {
    match s.profile
    case None => message
    case Some(p) =>
      ContextLinesRenderable(p, s.documents);
      var body := Concat(RenderEach(ContextLines(p, s.documents)));
      Framed(ContextHeading, body, MessageLead + message);
      ContextHeading + body + (MessageLead + message)
  }

  /** With a profile, every line of the profile text appears in the message. */
  lemma LineShown(s: ProfileState, message: string, l: Line)
    requires s.profile.Some? && l in ContextLines(s.profile.value, s.documents)
    ensures Renderable(l) && Contains(BuildContextualMessage(s, message), Render(l))
  {
    var ls := ContextLines(s.profile.value, s.documents);
    ContextLinesRenderable(s.profile.value, s.documents);
    var i :| 0 <= i < |ls| && ls[i] == l;
    var body := Concat(RenderEach(ls));
    ConcatContains(RenderEach(ls), i);
    ContainsAppendLeft(ContextHeading, body, Render(l));
    ContainsAppendRight(ContextHeading + body, MessageLead + message, Render(l));
  }

  /** With a profile, every present field (but the age range) shows up in
      the message text as its labelled line. */
  lemma FieldShown(s: ProfileState, message: string, f: Field)
    requires s.profile.Some? && f != AgeRange && Has(s.profile.value, f)
    ensures Contains(BuildContextualMessage(s, message), Label(f) + s.profile.value.text[f] + "\n")
  {
    var p := s.profile.value;
    ContextFieldLine(p, s.documents, f, p.text[f]);
    LineShown(s, message, FieldLine(f, p.text[f]));
  }

  /** `FieldLines` reads only the fields it is given. */
  lemma {:induction false} FieldLinesAgree(p: UserProfile, q: UserProfile, fs: seq<Field>)
    requires forall i :: 0 <= i < |fs| ==> (Has(p, fs[i]) <==> Has(q, fs[i]))
    requires forall i :: 0 <= i < |fs| && Has(p, fs[i]) && Has(q, fs[i]) ==> p.text[fs[i]] == q.text[fs[i]]
    ensures FieldLines(p, fs) == FieldLines(q, fs)
    decreases |fs|
  {
    if |fs| > 0 {
      FieldLinesAgree(p, q, fs[1..]);
    }
  }

  /** The message depends only on the present fields (an empty string is
      the same as no value), not on the age range and not on the photo. */
  lemma ContextIgnoresAbsentAndAge(s: ProfileState, message: string, q: UserProfile)
    requires s.profile.Some?
    requires forall f :: f != AgeRange ==> (Has(s.profile.value, f) <==> Has(q, f))
    requires forall f :: f != AgeRange && Has(s.profile.value, f) && Has(q, f) ==>
                           s.profile.value.text[f] == q.text[f]
    requires q.communicationStyle == s.profile.value.communicationStyle
    ensures BuildContextualMessage(s.(profile := Some(q)), message) == BuildContextualMessage(s, message)
  {
    var p := s.profile.value;
    FieldLinesAgree(p, q, HeadFields);
    FieldLinesAgree(p, q, MiddleFields);
    FieldLinesAgree(p, q, TailFields);
  }

  // ---------------------------------------------------------------------
  // Documents and photo
  // ---------------------------------------------------------------------

  const MaxDocumentBytes: int := 5 * 1024 * 1024
  const MaxPhotoBytes: int := 2 * 1024 * 1024

  /** A file picked for upload; `read` is what `FileReader` delivers for a
      text file, `None` when reading fails. */
  datatype UploadFile = UploadFile(name: string, size: int, mime: string, read: Option<string>)

  predicate IsTextFile(f: UploadFile) {
    StartsWith(f.mime, "text/") || EndsWith(f.name, ".txt")
  }

  /** `readFileContent`: the text of a text file, or a placeholder. */
  function ReadFileContent(f: UploadFile): (r: string)
    ensures IsTextFile(f) && f.read.Some? ==> r == f.read.value
    ensures !IsTextFile(f) ==> StartsWith(r, "Document: " + f.name + "\n")
  {
    if IsTextFile(f) then
      if f.read.Some? then f.read.value else "Error reading file: " + f.name
    else
      var head := "Document: " + f.name + "\n";
      StartsWithPrefix(head, "Type: " + f.mime + "\n\n[Document uploaded]");
      assert "Document: " + f.name + "\nType: " + f.mime + "\n\n[Document uploaded]"
          == head + ("Type: " + f.mime + "\n\n[Document uploaded]");
      "Document: " + f.name + "\nType: " + f.mime + "\n\n[Document uploaded]"
  }

  function Load(f: UploadFile, id: int): Document {
    Document(f.name, f.size, f.mime, ReadFileContent(f), id)
  }

  /** `handleFileUpload`: files larger than 5 MB are skipped and the loop
      goes on; the others are appended in order. `ids[k]` is the id drawn
      for `files[k]`. */
  function HandleFileUpload(docs: seq<Document>, files: seq<UploadFile>, ids: seq<int>): (r: seq<Document>)
    requires |ids| == |files|
    ensures |docs| <= |r| <= |docs| + |files| && r[..|docs|] == docs
    ensures forall i :: |docs| <= i < |r| ==> r[i].size <= MaxDocumentBytes
    decreases |files|
  {
    if |files| == 0 then docs
    else
      var n := |files| - 1;
      var prev := HandleFileUpload(docs, files[..n], ids[..n]);
      var f := files[n];
      if f.size > MaxDocumentBytes then prev
      else
        assert (prev + [Load(f, ids[n])])[..|docs|] == prev[..|docs|];
        prev + [Load(f, ids[n])]
  }

  /** Uploading two batches one after the other is uploading them together,
      and a single file is appended exactly when it is at most 5 MB; so the
      documents come in file order, one per small file. */
  lemma {:induction false} UploadAppend(docs: seq<Document>, a: seq<UploadFile>, b: seq<UploadFile>,
                                        ia: seq<int>, ib: seq<int>)
    requires |ia| == |a| && |ib| == |b|
    ensures HandleFileUpload(docs, a + b, ia + ib) == HandleFileUpload(HandleFileUpload(docs, a, ia), b, ib)
    ensures forall f, id :: HandleFileUpload(docs, [f], [id]) ==
                              docs + (if f.size <= MaxDocumentBytes then [Load(f, id)] else [])
    decreases |b|
  {
    forall f, id ensures HandleFileUpload(docs, [f], [id]) ==
                           docs + (if f.size <= MaxDocumentBytes then [Load(f, id)] else []) {
      assert [f][..0] == [] && [id][..0] == [];
    }
    if |b| == 0 {
      assert a + b == a && ia + ib == ia;
    } else {
      var n := |b| - 1;
      assert (a + b)[..|a + b| - 1] == a + b[..n];
      assert (ia + ib)[..|ia + ib| - 1] == ia + ib[..n];
      assert (a + b)[|a + b| - 1] == b[n] && (ia + ib)[|ia + ib| - 1] == ib[n];
      UploadAppend(docs, a, b[..n], ia, ib[..n]);
    }
  }

  /** Every file of at most 5 MB is loaded, with its id. */
  lemma {:induction false} UploadKeepsSmall(docs: seq<Document>, files: seq<UploadFile>, ids: seq<int>, k: nat)
    requires |ids| == |files| && k < |files| && files[k].size <= MaxDocumentBytes
    ensures Load(files[k], ids[k]) in HandleFileUpload(docs, files, ids)
    decreases |files|
  {
    var n := |files| - 1;
    if k < n {
      assert files[..n][k] == files[k] && ids[..n][k] == ids[k];
      UploadKeepsSmall(docs, files[..n], ids[..n], k);
    }
  }

  /** Every appended document is a loaded file of at most 5 MB. */
  lemma {:induction false} UploadOnlyLoads(docs: seq<Document>, files: seq<UploadFile>, ids: seq<int>, i: nat)
    requires |ids| == |files|
    requires |docs| <= i < |HandleFileUpload(docs, files, ids)|
    ensures exists k :: 0 <= k < |files| && files[k].size <= MaxDocumentBytes
                        && HandleFileUpload(docs, files, ids)[i] == Load(files[k], ids[k])
    decreases |files|
  {
    var n := |files| - 1;
    var prev := HandleFileUpload(docs, files[..n], ids[..n]);
    if i < |prev| {
      UploadOnlyLoads(docs, files[..n], ids[..n], i);
      var k :| 0 <= k < n && files[..n][k].size <= MaxDocumentBytes
               && prev[i] == Load(files[..n][k], ids[..n][k]);
      assert files[..n][k] == files[k] && ids[..n][k] == ids[k];
    } else {
      assert HandleFileUpload(docs, files, ids)[i] == Load(files[n], ids[n]);
    }
  }

  /** `removeUploadedFile(id)`: keep the documents with another id. */
  function RemoveUploadedFile(docs: seq<Document>, id: int): (r: seq<Document>)
    ensures |r| <= |docs|
    ensures forall i :: 0 <= i < |r| ==> r[i].id != id && r[i] in docs
  {
    if |docs| == 0 then []
    else
      var rest := RemoveUploadedFile(docs[1..], id);
      if docs[0].id == id then rest else [docs[0]] + rest
  }

  /** Every document with another id is kept. */
  lemma {:induction false} RemoveKeepsOthers(docs: seq<Document>, id: int, d: Document)
    requires d in docs && d.id != id
    ensures d in RemoveUploadedFile(docs, id)
    decreases |docs|
  {
    if docs[0] != d {
      RemoveKeepsOthers(docs[1..], id, d);
    }
  }

  /** Removal works piecewise, so the remaining documents keep their order:
      removal from a split list is removal from each part, joined. */
  lemma {:induction false} RemoveDistributes(a: seq<Document>, b: seq<Document>, id: int)
    ensures RemoveUploadedFile(a + b, id) == RemoveUploadedFile(a, id) + RemoveUploadedFile(b, id)
    decreases |a|
  {
    if |a| > 0 {
      assert (a + b)[0] == a[0];
      assert (a + b)[1..] == a[1..] + b;
      RemoveDistributes(a[1..], b, id);
    } else {
      assert a + b == b;
    }
  }

  /** Removing an id nobody has changes nothing. */
  lemma {:induction false} RemoveAbsent(docs: seq<Document>, id: int)
    requires forall i :: 0 <= i < |docs| ==> docs[i].id != id
    ensures RemoveUploadedFile(docs, id) == docs
    decreases |docs|
  {
    if |docs| > 0 {
      RemoveAbsent(docs[1..], id);
    }
  }

  /** A picked image file. */
  datatype PhotoFile = PhotoFile(mime: string, size: int)

  /** How `resizeImage` settles. Its promise resolves with a JPEG data URL
      once the image loads; it rejects only when building the promise throws
      (creating the canvas or the object URL); it never settles when the
      image fails to decode, because no error handler is installed. */
  datatype Resize = Resized(url: string) | ResizeThrew | NeverLoads

  /** The photo after `handlePhotoUpload`, the error shown, if any, and
      whether the handler is still waiting on the resize. */
  datatype PhotoUpload = PhotoUpload(photo: Option<string>, error: Option<string>, pending: bool)

  /** An image file of at most 2 MB, which the handler goes on to resize. */
  predicate AcceptedPhoto(file: Option<PhotoFile>) {
    file.Some? && StartsWith(file.value.mime, "image/") && file.value.size <= MaxPhotoBytes
  }

  /** `handlePhotoUpload`: `resize` is how the `resizeImage` call settles. */
  function HandlePhotoUpload(photo: Option<string>, file: Option<PhotoFile>, resize: Resize): (r: PhotoUpload)
    ensures r.photo != photo ==> AcceptedPhoto(file) && resize.Resized? && r.photo == Some(resize.url)
    ensures r.error.Some? ==> r.photo == photo && !r.pending
    ensures r.pending <==> AcceptedPhoto(file) && resize == NeverLoads
    ensures r.pending ==> r == PhotoUpload(photo, None, true)
    ensures AcceptedPhoto(file) && resize.Resized? ==> r == PhotoUpload(Some(resize.url), None, false)
    ensures AcceptedPhoto(file) && resize == ResizeThrew ==>
              r == PhotoUpload(photo, Some("Error uploading photo. Please try again."), false)
    ensures file.Some? && !StartsWith(file.value.mime, "image/") ==>
              r == PhotoUpload(photo, Some("Please select an image file."), false)
    ensures file.Some? && StartsWith(file.value.mime, "image/") && file.value.size > MaxPhotoBytes ==>
              r == PhotoUpload(photo, Some("Image must be smaller than 2MB."), false)
  {
    match file
    case None => PhotoUpload(photo, None, false)
    case Some(f) =>
      if !StartsWith(f.mime, "image/") then PhotoUpload(photo, Some("Please select an image file."), false)
      else if f.size > MaxPhotoBytes then PhotoUpload(photo, Some("Image must be smaller than 2MB."), false)
      else
        match resize
        case Resized(url) => PhotoUpload(Some(url), None, false)
        case ResizeThrew => PhotoUpload(photo, Some("Error uploading photo. Please try again."), false)
        case NeverLoads => PhotoUpload(photo, None, true)
  }

  // ---------------------------------------------------------------------
  // Clearing and the avatar
  // ---------------------------------------------------------------------

  /** `clearProfileData`, with the answer to the confirmation dialog. */
  function ClearProfileData(s: ProfileState, confirmed: bool): (r: ProfileState)
    ensures confirmed ==> r.profile.None? && r.photo.None? && r.documents == []
    ensures !confirmed ==> r == s
  {
    if confirmed then ProfileState(None, None, []) else s
  }

  /** The default avatar, as the source spells it (the UTF-8 bytes of the
      bust emoji read as Windows-1252). */
  const DefaultAvatar: string := "\U{00F0}\U{0178}\U{2018}\U{00A4}"

  /** `getUserAvatar`: the photo as an image tag, or the default. */
  function GetUserAvatar(photo: Option<string>): (r: string)
    ensures Truthy(photo) ==> StartsWith(r, "<img src=\"") && Contains(r, photo.value)
    ensures !Truthy(photo) ==> r == DefaultAvatar
  {
    if Truthy(photo) then
      ContainsInfix("<img src=\"", photo.value, "\" alt=\"Your photo\">");
      StartsWithPrefix("<img src=\"", photo.value + "\" alt=\"Your photo\">");
      assert "<img src=\"" + photo.value + "\" alt=\"Your photo\">"
          == "<img src=\"" + (photo.value + "\" alt=\"Your photo\">");
      "<img src=\"" + photo.value + "\" alt=\"Your photo\">"
    else DefaultAvatar
  }

  /** After a confirmed clear, messages go out bare and the avatar is the
      default; a cancelled clear changes neither. */
  lemma ClearedProfileIsSilent(s: ProfileState, message: string, confirmed: bool)
    ensures confirmed ==> BuildContextualMessage(ClearProfileData(s, confirmed), message) == message
    ensures confirmed ==> GetUserAvatar(ClearProfileData(s, confirmed).photo) == DefaultAvatar
    ensures !confirmed ==> BuildContextualMessage(ClearProfileData(s, confirmed), message)
                             == BuildContextualMessage(s, message)
  {
  }
}
