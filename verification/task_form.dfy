/** The challenge authoring form (components/CreateChallengeForm.tsx): its
    form fields and draft task list, the builder that turns the task
    generator's answer (or nothing) into a draft task list, the draft task
    edit, the duration field's parse-with-default and the final submit. */
module TaskForm {
  import opened Types
  import opened Constants
  import opened TaskLists

  /** The form's fields, without the task list. */
  datatype FormData = FormData(
    title: string,
    description: string,
    totalDays: int,
    target: string,
    category: string,
    isPublic: bool,
    approvalRequired: bool)

  // ------------------------------------------------------- decimal text

  predicate IsDigit(c: char) {
    '0' <= c <= '9'
  }

  predicate AllDigits(s: string) {
    forall k :: 0 <= k < |s| ==> IsDigit(s[k])
  }

  function DigitChar(d: nat): (c: char)
    requires d < 10
    ensures IsDigit(c) && c as int - '0' as int == d
  {
    ('0' as int + d) as char
  }

  /** The decimal text of a natural number, most significant digit first:
      what a template literal prints for it. A leading zero appears only in
      the text of zero itself. */
  function NatToString(n: nat): (s: string)
    ensures |s| >= 1 && AllDigits(s)
    ensures s[0] == '0' <==> n == 0
    decreases n
  {
    if n < 10 then [DigitChar(n)] else NatToString(n / 10) + [DigitChar(n % 10)]
  }

  /** The number a run of decimal digits denotes. */
  function DigitsValue(ds: string): (v: nat)
    requires AllDigits(ds)
    ensures v == 0 <==> forall k :: 0 <= k < |ds| ==> ds[k] == '0'
  {
    if ds == [] then 0
    else DigitsValue(ds[..|ds| - 1]) * 10 + (ds[|ds| - 1] as int - '0' as int)
  }

  /** Reading back the text of a number gives the number. */
  lemma {:induction false} DigitsValueOfNatToString(n: nat)
    ensures DigitsValue(NatToString(n)) == n
    decreases n
  {
    if n >= 10 {
      var s := NatToString(n);
      assert s[..|s| - 1] == NatToString(n / 10);
      DigitsValueOfNatToString(n / 10);
    }
  }

  /** Different numbers print differently. */
  lemma NatToStringInjective(a: nat, b: nat)
    ensures NatToString(a) == NatToString(b) <==> a == b
  {
    DigitsValueOfNatToString(a);
    DigitsValueOfNatToString(b);
  }

  /** The white space `parseInt` skips before the number (ASCII only). */
  predicate IsSpace(c: char) {
    c == ' ' || c == '\t' || c == '\n' || c == '\r' || c == '\U{000B}' || c == '\U{000C}'
  }

  function SkipSpace(s: string): (r: string)
    ensures |r| <= |s| && forall k :: 0 <= k < |s| - |r| ==> IsSpace(s[k])
    ensures r == [] || !IsSpace(r[0])
  {
    if s != [] && IsSpace(s[0]) then SkipSpace(s[1..]) else s
  }

  /** What white space skipping leaves is the rest of `s`. */
  lemma {:induction false} SkipSpaceSuffix(s: string)
    ensures SkipSpace(s) == s[|s| - |SkipSpace(s)|..]
  {
    if s != [] && IsSpace(s[0]) {
      SkipSpaceSuffix(s[1..]);
      assert s[1..][|s| - 1 - |SkipSpace(s)|..] == s[|s| - |SkipSpace(s)|..];
    }
  }

  /** White space put in front of a text is skipped whole. */
  lemma {:induction false} SkipSpaceOf(w: string, t: string)
    requires forall k :: 0 <= k < |w| ==> IsSpace(w[k])
    ensures SkipSpace(w + t) == SkipSpace(t)
  {
    if w == [] {
      assert w + t == t;
    } else {
      assert (w + t)[1..] == w[1..] + t;
      SkipSpaceOf(w[1..], t);
    }
  }

  /** The longest run of digits at the front of `s`. */
  function LeadingDigits(s: string): (r: string)
    ensures AllDigits(r)
    ensures |r| <= |s| && r == s[..|r|]
    ensures |r| < |s| ==> !IsDigit(s[|r|])
  {
    if s == [] || !IsDigit(s[0]) then [] else [s[0]] + LeadingDigits(s[1..])
  }

  /** A run of digits followed by a non-digit (or nothing) is read whole. */
  lemma {:induction false} LeadingDigitsOfNumber(ds: string, rest: string)
    requires AllDigits(ds)
    requires rest == [] || !IsDigit(rest[0])
    ensures LeadingDigits(ds + rest) == ds
  {
    if ds != [] {
      assert (ds + rest)[1..] == ds[1..] + rest;
      LeadingDigitsOfNumber(ds[1..], rest);
      assert ds == [ds[0]] + ds[1..];
    } else {
      assert ds + rest == rest;
    }
  }

  /** What follows an optional leading sign. */
  function AfterSign(t: string): (body: string)
    ensures t != [] && (t[0] == '-' || t[0] == '+') ==> body == t[1..]
    ensures t == [] || (t[0] != '-' && t[0] != '+') ==> body == t
  {
    if t != [] && (t[0] == '-' || t[0] == '+') then t[1..] else t
  }

  /** The number at the front of `body` (after the sign), negated when the
      sign was a minus; None when `body` does not start with a digit. */
  function SignedValue(body: string, negative: bool): (r: Option<int>)
    ensures r.None? <==> body == [] || !IsDigit(body[0])
  {
    var ds := LeadingDigits(body);
    if ds == [] then None
    else if negative then Some(-(DigitsValue(ds) as int))
    else Some(DigitsValue(ds))
  }

  /** `parseInt(s)` in base 10: skip leading white space, take an optional
      sign and the longest run of digits after it; no digit at all is NaN
      (None). Whatever follows the digits is ignored. */
  function ParseInt(s: string): (r: Option<int>)
    ensures var body := AfterSign(SkipSpace(s));
      r.None? <==> body == [] || !IsDigit(body[0])
  {
    var t := SkipSpace(s);
    SignedValue(AfterSign(t), t != [] && t[0] == '-')
  }

  /** A run of digits followed by a non-digit (or nothing) is read as the
      number it denotes, with the sign applied. */
  lemma SignedValueOfDigits(ds: string, rest: string, negative: bool)
    requires ds != [] && AllDigits(ds)
    requires rest == [] || !IsDigit(rest[0])
    ensures SignedValue(ds + rest, negative) == Some(if negative then -(DigitsValue(ds) as int) else DigitsValue(ds))
  {
    LeadingDigitsOfNumber(ds, rest);
  }

  /** Text that starts with a digit has no white space or sign to skip. */
  lemma StartsWithDigit(t: string)
    requires t != [] && IsDigit(t[0])
    ensures SkipSpace(t) == t && AfterSign(t) == t
  {
  }

  /** A non-empty run of digits followed by a non-digit (or nothing) parses
      to the number it denotes. */
  lemma ParseIntOfDigits(ds: string, rest: string)
    requires ds != [] && AllDigits(ds)
    requires rest == [] || !IsDigit(rest[0])
    ensures ParseInt(ds + rest) == Some(DigitsValue(ds))
  {
    var t := ds + rest;
    assert t[0] == ds[0];
    StartsWithDigit(t);
    SignedValueOfDigits(ds, rest, false);
  }

  /** With a minus sign in front, it parses to the negated number. */
  lemma ParseIntOfNegatedDigits(ds: string, rest: string)
    requires ds != [] && AllDigits(ds)
    requires rest == [] || !IsDigit(rest[0])
    ensures ParseInt("-" + ds + rest) == Some(-(DigitsValue(ds) as int))
  {
    var t := ds + rest;
    var u := "-" + ds + rest;
    assert u == ['-'] + t;
    assert u[1..] == t by {
      assert |u[1..]| == |t|;
      forall k | 0 <= k < |t|
        ensures u[1..][k] == t[k]
      {
      }
    }
    assert SkipSpace(u) == u;
    assert AfterSign(u) == t;
    SignedValueOfDigits(ds, rest, true);
  }

  /** Parsing inverts printing, whatever non-digit text follows. */
  lemma ParseIntOfNatToString(n: nat, rest: string)
    requires rest == [] || !IsDigit(rest[0])
    ensures ParseInt(NatToString(n) + rest) == Some(n)
    ensures ParseInt("-" + NatToString(n) + rest) == Some(-(n as int))
  {
    ParseIntOfDigits(NatToString(n), rest);
    ParseIntOfNegatedDigits(NatToString(n), rest);
    DigitsValueOfNatToString(n);
  }

  /** White space in front of a text does not change what it parses to. */
  lemma ParseIntAfterSpace(w: string, t: string)
    requires forall k :: 0 <= k < |w| ==> IsSpace(w[k])
    ensures ParseInt(w + t) == ParseInt(t)
  {
    SkipSpaceOf(w, t);
  }

  /** A leading `+` is dropped: it parses like the bare digits. */
  lemma ParseIntOfPlusDigits(ds: string, rest: string)
    requires ds != [] && AllDigits(ds)
    requires rest == [] || !IsDigit(rest[0])
    ensures ParseInt("+" + ds + rest) == Some(DigitsValue(ds))
  {
    var t := ds + rest;
    var u := "+" + ds + rest;
    assert u == ['+'] + t;
    assert u[1..] == t;
    assert SkipSpace(u) == u;
    assert AfterSign(u) == t;
    SignedValueOfDigits(ds, rest, false);
  }

  // ------------------------------------------------------------ duration

  /** `parseInt(value) || 1`: NaN and zero both fall back to one day; any
      other number, negative ones included, is kept. */
  function DurationOrDefault(parsed: Option<int>): (d: int)
    ensures d != 0
    ensures d == 1 <==> parsed.None? || parsed.value == 0 || parsed.value == 1
    ensures parsed.Some? && parsed.value != 0 ==> d == parsed.value
  {
    if parsed.Some? && parsed.value != 0 then parsed.value else 1
  }

  /** An empty field and a zero both give one day. */
  lemma DurationFallbackExamples()
    ensures DurationOrDefault(ParseInt("")) == 1
    ensures DurationOrDefault(ParseInt("0")) == 1
  {
    assert DigitsValue("0") == 0;
    ParseIntOfDigits("0", []);
    assert "0" + [] == "0";
  }

  /** A number is taken as it is. */
  lemma DurationNumberExample()
    ensures DurationOrDefault(ParseInt("45")) == 45
  {
    assert "45"[..1] == "4";
    assert DigitsValue("45") == 45;
    ParseIntOfDigits("45", []);
    assert "45" + [] == "45";
  }

  /** Whatever follows the first non-digit is ignored. */
  lemma DurationFractionExample()
    ensures DurationOrDefault(ParseInt("7.5")) == 7
  {
    assert DigitsValue("7") == 7;
    ParseIntOfDigits("7", ".5");
    assert "7" + ".5" == "7.5";
  }

  /** A negative number keeps its sign. */
  lemma DurationNegativeExample()
    ensures DurationOrDefault(ParseInt("-3")) == -3
  {
    assert DigitsValue("3") == 3;
    ParseIntOfNegatedDigits("3", []);
    assert "3" + [] == "3";
    assert "-" + "3" == "-3";
  }

  /** Whatever the field holds, the duration is never zero, and a printed
      positive number is taken as it is. */
  lemma DurationOfPrintedNumber(n: nat)
    requires n > 0
    ensures DurationOrDefault(ParseInt(NatToString(n))) == n
  {
    ParseIntOfNatToString(n, []);
    assert NatToString(n) + [] == NatToString(n);
  }

  // ------------------------------------------------------- task builder

  /** `t.day || i + 1`: the generator's day unless it is missing, not a
      number or zero, in which case the position (counted from one). The
      result is never zero. */
  function DayOr(day: Option<int>, i: nat): (d: int)
    ensures d != 0
    ensures d == i + 1 || day == Some(d)
  {
    if day.Some? && day.value != 0 then day.value else i + 1
  }

  /** The generator's answer made into incomplete tasks, in its order;
      `idOf(i)` is the fresh random id drawn for entry i. */
  function FromGenerated(ai: seq<GeneratedTask>, idOf: nat -> string): (r: seq<Task>)
    ensures |r| == |ai|
    ensures forall k :: 0 <= k < |r| ==> !r[k].isCompleted
  {
    seq(|ai|, i requires 0 <= i < |ai| =>
      Task(idOf(i), DayOr(ai[i].day, i), ai[i].description, false, None, None))
  }

  /** The placeholder description of a day. */
  function PlaceholderDescription(day: nat): (r: string)
    ensures |r| > 13 && r[..13] == "Task for day " && AllDigits(r[13..])
  {
    "Task for day " + NatToString(day)
  }

  /** Different days get different placeholder descriptions. */
  lemma PlaceholderDescriptionInjective(a: nat, b: nat)
    ensures PlaceholderDescription(a) == PlaceholderDescription(b) <==> a == b
  {
    NatToStringInjective(a, b);
    var p := "Task for day ";
    assert PlaceholderDescription(a)[|p|..] == NatToString(a);
    assert PlaceholderDescription(b)[|p|..] == NatToString(b);
  }

  /** `Array.from({ length: n }, …)`: one placeholder task per day. */
  function Placeholders(n: nat, idOf: nat -> string): (r: seq<Task>)
    ensures |r| == n
    ensures forall k :: 0 <= k < |r| ==> !r[k].isCompleted
  {
    seq(n, i requires 0 <= i < n => Task(idOf(i), i + 1, PlaceholderDescription(i + 1), false, None, None))
  }

  /** `generateTasks`: the generator's answer when it has any entry, else
      `totalDays` placeholders (none when `totalDays` is negative, as
      `Array.from` clamps the length). Either way nothing is completed. */
  function BuildTasks(ai: seq<GeneratedTask>, totalDays: int, idOf: nat -> string): (r: seq<Task>)
    ensures |r| == if |ai| > 0 then |ai| else if totalDays < 0 then 0 else totalDays
    ensures forall k :: 0 <= k < |r| ==> !r[k].isCompleted
    ensures CompletedCount(r) == 0
  {
    var r := if |ai| > 0 then FromGenerated(ai, idOf) else Placeholders(if totalDays < 0 then 0 else totalDays, idOf);
    CompletedCountFull(r);
    r
  }

  /** With an empty answer the builder yields exactly `totalDays` tasks whose
      days are exactly 1..totalDays, each once, and whose descriptions are
      pairwise different. */
  lemma PlaceholderDays(totalDays: nat, idOf: nat -> string)
    ensures var r := BuildTasks([], totalDays, idOf);
      && |r| == totalDays
      && (forall k :: 0 <= k < |r| ==> r[k].day == k + 1 && r[k].description == PlaceholderDescription(k + 1))
      && (forall i, j :: 0 <= i < j < |r| ==> r[i].day != r[j].day && r[i].description != r[j].description)
  {
    var r := BuildTasks([], totalDays, idOf);
    forall i, j | 0 <= i < j < |r|
      ensures r[i].description != r[j].description
    {
      PlaceholderDescriptionInjective(i + 1, j + 1);
    }
  }

  /** With a non-empty answer the builder keeps its length and order and
      its descriptions; a day is the generator's day, or the position
      (from one) when that is missing or zero. */
  lemma GeneratedKept(ai: seq<GeneratedTask>, totalDays: int, idOf: nat -> string)
    requires |ai| > 0
    ensures var r := BuildTasks(ai, totalDays, idOf);
      && |r| == |ai|
      && forall k :: 0 <= k < |r| ==>
        && r[k].id == idOf(k)
        && r[k].description == ai[k].description
        && r[k].day == (if ai[k].day.Some? && ai[k].day.value != 0 then ai[k].day.value else k + 1)
  {
  }

  /** A five-day challenge with no generated tasks gets the placeholders
      "Task for day 1" to "Task for day 5". */
  lemma FiveDayFallback(idOf: nat -> string)
    ensures var r := BuildTasks([], 5, idOf);
      && |r| == 5
      && r[0].description == "Task for day 1" && r[1].description == "Task for day 2"
      && r[2].description == "Task for day 3" && r[3].description == "Task for day 4"
      && r[4].description == "Task for day 5"
  {
    var r := BuildTasks([], 5, idOf);
    forall k | 0 <= k < 5
      ensures r[k].description == "Task for day " + [DigitChar(k + 1)]
    {
      assert r[k].description == PlaceholderDescription(k + 1);
      assert NatToString(k + 1) == [DigitChar(k + 1)];
    }
  }

  // ------------------------------------------------------------- submit

  /** `{ ...formData, tasks }`: the draft `onSave` receives. */
  function Draft(f: FormData, ts: seq<Task>): ChallengeDraft {
    ChallengeDraft(f.title, f.description, f.totalDays, f.target, f.category, f.isPublic, f.approvalRequired, ts)
  }

  /** The form fields of a draft. */
  function FieldsOf(d: ChallengeDraft): FormData {
    FormData(d.title, d.description, d.totalDays, d.target, d.category, d.isPublic, d.approvalRequired)
  }

  /** Submitting loses nothing: the draft's fields are the form's and its
      task list is the form's, and every draft arises from exactly one pair. */
  lemma DraftRoundTrip(f: FormData, ts: seq<Task>, d: ChallengeDraft)
    ensures FieldsOf(Draft(f, ts)) == f && Draft(f, ts).tasks == ts
    ensures Draft(FieldsOf(d), d.tasks) == d
  {
  }

  /** The authoring form's state: the field values and the draft task list. */
  class ChallengeForm {
    var formData: FormData
    var tasks: seq<Task>

    /** The initial state: empty texts, 30 days, the first category,
        public, no approval, no tasks. */
    constructor ()
      ensures formData == FormData("", "", 30, "", Categories[0], true, false)
      ensures tasks == []
    {
      formData := FormData("", "", 30, "", Categories[0], true, false);
      tasks := [];
    }

    /** `generateTasks`, given the generator's answer (an empty list when it
        failed) and the ids drawn for the new tasks. */
    method GenerateTasks(aiTasks: seq<GeneratedTask>, idOf: nat -> string)
      modifies this`tasks
      ensures tasks == BuildTasks(aiTasks, formData.totalDays, idOf)
      ensures CompletedCount(tasks) == 0
    {
      tasks := BuildTasks(aiTasks, formData.totalDays, idOf);
    }

    /** `handleTaskEdit`: change the description of the task with that id. */
    method EditTask(id: string, newDesc: string)
      modifies this`tasks
      ensures tasks == EditDescription(old(tasks), id, newDesc)
      ensures CompletedCount(tasks) == CompletedCount(old(tasks))
    {
      tasks := EditDescription(tasks, id, newDesc);
      EditKeepsCompletion(old(tasks), id, newDesc);
    }

    /** The duration field's change handler, given the field's text. */
    method SetDuration(value: string)
      modifies this`formData
      ensures formData == old(formData).(totalDays := DurationOrDefault(ParseInt(value)))
      ensures formData.totalDays != 0
    {
      formData := formData.(totalDays := DurationOrDefault(ParseInt(value)));
    }

    /** `handleFinalSubmit`: the draft handed to the catalog. */
    method FinalSubmit() returns (d: ChallengeDraft)
      ensures FieldsOf(d) == formData && d.tasks == tasks
    {
      d := Draft(formData, tasks);
    }
  }
}
