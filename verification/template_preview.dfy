/** The print-format editor's live preview and its form. The preview
    fills a Jinja2 payslip template with fixed sample data in the browser:
    ten global replacements of `{{ key }}` placeholders, one per sample
    field in insertion order, then one global replacement of the
    `{{ "%.2f"|format(name) }}` filter through a callback that may throw.

    Each regular expression is read as a scanner over the rest of the text:
    at each position either a match starts there (its replacement is
    emitted and the scan resumes after it) or the character is copied. The
    `\s*` runs are taken greedily; what follows each of them (a key, a
    quote, a bar, the word `format`, the closing braces) starts with a
    character that is not white space, so backtracking could not find any
    other match. */
module TemplatePreview {
  import opened Wrappers
  import opened Text

  // ---- scanning helpers ----

  /** Length of the run of `\w` characters at the start of `s`. */
  function WordRun(s: string): (n: nat)
    ensures n <= |s|
    ensures forall i :: 0 <= i < n ==> IsWordChar(s[i])
    ensures n < |s| ==> !IsWordChar(s[n])
  {
    if |s| > 0 && IsWordChar(s[0]) then
      var n := 1 + WordRun(s[1..]);
      assert forall i :: 1 <= i < n ==> s[i] == s[1..][i - 1];
      n
    else 0
  }

  /** `{{`, white space, `key`, white space, `}}` at the start of `t` (a
      greedy `\s*` is `TrimStart`): the text after the match, if any. */
  function KeyMatch(t: string, key: string): (r: Option<string>)
    ensures r.Some? ==> StartsWith(t, "{{") && |r.value| < |t|
  {
    var t1 :- Expect(t, "{{");
    var t2 :- Expect(TrimStart(t1), key);
    var t3 :- Expect(TrimStart(t2), "}}");
    Some(t3)
  }

  /** `t.replace(new RegExp(`\\{\\{\\s*${key}\\s*\\}\\}`, 'g'), value)`. */
  function ReplaceKey(t: string, key: string, value: string): string
    decreases |t|
  {
    if |t| == 0 then []
    else
      match KeyMatch(t, key)
      case Some(rest) => value + ReplaceKey(rest, key, value)
      case None => [t[0]] + ReplaceKey(t[1..], key, value)
  }

  /** The six characters `"%.2f"` of the pattern at the start of `t`; its
      `.` is unescaped, so it stands for any character but a line
      terminator. A character here is a code point; the browser's
      non-unicode regular expression matches one UTF-16 code unit. */
  function ExpectSpec(t: string): (r: Option<string>)
    ensures r.Some? ==> |r.value| == |t| - 6 && r.value == t[6..]
  {
    if |t| >= 6 && t[0] == '"' && t[1] == '%' && !IsLineTerminator(t[2]) && t[3] == '2' && t[4] == 'f' && t[5] == '"'
    then Some(t[6..]) else None
  }

  /** `{{`, white space, `"%.2f"`, white space, `|`, white space and
      `format(` at the start of `t`: the text after them. */
  function FilterOpening(t: string): (r: Option<string>)
    ensures r.Some? ==> StartsWith(t, "{{") && |r.value| < |t|
  {
    var t1 :- Expect(t, "{{");
    var t2 :- ExpectSpec(TrimStart(t1));
    var t3 :- Expect(TrimStart(t2), "|");
    Expect(TrimStart(t3), "format(")
  }

  /** The captured name, `)`, white space and `}}` at the start of `t`: the
      text after them and the name. */
  function FilterClosing(t: string): (r: Option<(string, string)>)
    ensures r.Some? ==> |r.value.0| < |t| && IsWord(r.value.1)
  {
    var w := WordRun(t);
    if w == 0 then None
    else
      var t1 :- Expect(t[w..], ")");
      var t2 :- Expect(TrimStart(t1), "}}");
      Some((t2, t[..w]))
  }

  /** `{{ "%.2f"|format(name) }}` at the start of `t`, with white space
      allowed where the pattern has `\s*`: the text after the match and
      the captured name. */
  function FilterMatch(t: string): (r: Option<(string, string)>)
    ensures r.Some? ==> StartsWith(t, "{{") && |r.value.0| < |t| && IsWord(r.value.1)
  {
    var rest :- FilterOpening(t);
    FilterClosing(rest)
  }

  // ---- the sample data ----

  datatype SampleValue = TextValue(s: string) | NumberValue(n: nat)

  /** `SAMPLE_DATA` in insertion order. `today` is `generated_date`, the
      browser's long rendering of the current date; the clock is not
      modelled. The amounts are whole numbers. */
  function SampleData(today: string): seq<(string, SampleValue)> {
    [ ("employee_name", TextValue("John Doe")),
      ("employee_id", TextValue("EMP12AB34CD")),
      ("employee_email", TextValue("john@company.com")),
      ("department", TextValue("Engineering")),
      ("month", TextValue("January 2025")),
      ("basic_salary", NumberValue(50000)),
      ("allowances", NumberValue(5000)),
      ("deductions", NumberValue(2000)),
      ("net_pay", NumberValue(53000)),
      ("generated_date", TextValue(today)) ]
  }

  /** `String(value)`: a whole number prints without a fraction. */
  function Shown(v: SampleValue): string {
    match v
    case TextValue(s) => s
    case NumberValue(n) => NatText(n)
  }

  /** `SAMPLE_DATA[name]` for an own field: the first entry with that key. */
  function Lookup(entries: seq<(string, SampleValue)>, name: string): (r: Option<SampleValue>)
    ensures r.None? <==> forall i :: 0 <= i < |entries| ==> entries[i].0 != name
    ensures r.Some? ==> exists i :: 0 <= i < |entries| && entries[i] == (name, r.value)
  {
    if |entries| == 0 then None
    else if entries[0].0 == name then Some(entries[0].1)
    else
      var r := Lookup(entries[1..], name);
      assert forall i :: 1 <= i < |entries| ==> entries[i] == entries[1..][i - 1];
      r
  }

  /** The names every plain object inherits from `Object.prototype`; each
      is a function, or an object for `__proto__`, so truthy and without
      `toFixed`. */
  const InheritedNames: set<string> := {
    "constructor", "hasOwnProperty", "isPrototypeOf", "propertyIsEnumerable",
    "toLocaleString", "toString", "valueOf", "__proto__",
    "__defineGetter__", "__defineSetter__", "__lookupGetter__", "__lookupSetter__" }

  const Rupee: string := "\U{20B9}"
  const NotAFunction: string := "value.toFixed is not a function"

  /** Whether `SAMPLE_DATA[name] || 0` is a number. */
  predicate Numeric(entries: seq<(string, SampleValue)>, name: string) {
    match Lookup(entries, name)
    case Some(TextValue(s)) => s == ""
    case Some(NumberValue(_)) => true
    case None => name !in InheritedNames
  }

  /** The filter callback: `SAMPLE_DATA[name] || 0`, then `₹` and
      `toFixed(2)`. A missing field, an empty text and zero all fall back
      to 0; a non-empty text or an inherited function has no `toFixed`, and
      the call throws a `TypeError`. */
  function Amount(entries: seq<(string, SampleValue)>, name: string): (r: Result<string, string>)
    ensures r.Ok? <==> Numeric(entries, name)
    ensures r.Err? ==> r.error == NotAFunction
    ensures r.Ok? ==> |r.value| >= |Rupee| + 4 && r.value[..|Rupee|] == Rupee && r.value[|r.value| - 3..] == ".00"
    ensures Lookup(entries, name) == Some(TextValue("")) || (Lookup(entries, name).None? && name !in InheritedNames)
            ==> r == Ok(Rupee + "0.00")
    ensures Lookup(entries, name).Some? && Lookup(entries, name).value.NumberValue? ==>
              r == Ok(Rupee + NatText(Lookup(entries, name).value.n) + ".00")
  {
    match Lookup(entries, name)
    case Some(NumberValue(n)) => Ok(Rupee + NatText(n) + ".00")
    case Some(TextValue(s)) => if s == "" then Ok(Rupee + "0.00") else Err(NotAFunction)
    case None => if name in InheritedNames then Err(NotAFunction) else Ok(Rupee + "0.00")
  }

  /** The ten key passes, one per sample field, in order. */
  function KeyPasses(t: string, entries: seq<(string, SampleValue)>): string
    decreases |entries|
  {
    if |entries| == 0 then t
    else KeyPasses(ReplaceKey(t, entries[0].0, Shown(entries[0].1)), entries[1..])
  }

  /** The filter pass: the first callback that throws aborts it. */
  function ApplyFilters(t: string, entries: seq<(string, SampleValue)>): (r: Result<string, string>)
    ensures r.Err? ==> r.error == NotAFunction
    decreases |t|
  {
    if |t| == 0 then Ok([])
    else
      match FilterMatch(t)
      case Some((rest, name)) =>
        var cell :- Amount(entries, name);
        var tail :- ApplyFilters(rest, entries);
        Ok(cell + tail)
      case None =>
        var tail :- ApplyFilters(t[1..], entries);
        Ok([t[0]] + tail)
  }

  datatype Preview = Preview(html: string, error: string)

  const PreviewFailed: string := "Error generating preview: "

  /** `generatePreview`: a blank template clears both the preview and the
      error; otherwise the filled text with no error, or no text and the
      thrown message. */
  function GeneratePreview(template: string, today: string): (r: Preview)
    ensures AllSpace(template) ==> r == Preview("", "")
    ensures r.error == "" || (r.html == "" && r.error == PreviewFailed + NotAFunction)
    ensures !AllSpace(template) && r.error == "" ==>
              ApplyFilters(KeyPasses(template, SampleData(today)), SampleData(today)) == Ok(r.html)
  {
    TrimEmptyIffAllSpace(template);
    if Trim(template) == "" then Preview("", "")
    else
      match ApplyFilters(KeyPasses(template, SampleData(today)), SampleData(today))
      case Ok(p) => Preview(p, "")
      case Err(m) => Preview("", PreviewFailed + m)
  }

  // ---- a reference reading through template pieces ----

  /** A template read as pieces: literal text, a `{{ key }}` placeholder
      (with the white space written around the key) and a filter. */
  datatype Segment =
    | Plain(text: string)
    | Placeholder(lead: string, key: string, trail: string)
    | Formatted(lead: string, dot: char, beforeBar: string, afterBar: string, name: string, trail: string)

  function FormatSpec(dot: char): string {
    ['"', '%', dot, '2', 'f', '"']
  }

  /** The text a piece stands for. */
  function Raw(seg: Segment): string {
    match seg
    case Plain(text) => text
    case Placeholder(lead, key, trail) => "{{" + (lead + (key + (trail + "}}")))
    case Formatted(lead, dot, b1, b2, name, trail) =>
      "{{" + (lead + (FormatSpec(dot) + (b1 + ("|" + (b2 + ("format(" + (name + (")" + (trail + "}}")))))))))
  }

  function Render(segs: seq<Segment>): string {
    if |segs| == 0 then [] else Raw(segs[0]) + Render(segs[1..])
  }

  /** No `{{` inside and no `{` at the end: no match can start in such a
      text, whatever follows it. */
  predicate Inert(s: string) {
    forall i :: 0 <= i < |s| && s[i] == '{' ==> i + 1 < |s| && s[i + 1] != '{'
  }

  predicate WellFormed(seg: Segment) {
    match seg
    case Plain(text) => Inert(text)
    case Placeholder(lead, key, trail) => AllSpace(lead) && IsWord(key) && AllSpace(trail)
    case Formatted(lead, dot, b1, b2, name, trail) =>
      AllSpace(lead) && !IsLineTerminator(dot) && AllSpace(b1) && AllSpace(b2) && IsWord(name) && AllSpace(trail)
  }

  predicate AllWellFormed(segs: seq<Segment>) {
    forall i :: 0 <= i < |segs| ==> WellFormed(segs[i])
  }

  /** What one piece becomes: a placeholder of a sample field its value's
      text, any other placeholder itself, a filter its amount. */
  function Expected(seg: Segment, entries: seq<(string, SampleValue)>): Result<string, string> {
    match seg
    case Plain(text) => Ok(text)
    case Placeholder(_, key, _) =>
      (match Lookup(entries, key)
       case Some(v) => Ok(Shown(v))
       case None => Ok(Raw(seg)))
    case Formatted(_, _, _, _, name, _) => Amount(entries, name)
  }

  /** The pieces in order; the first failing one fails the whole. */
  function ExpectedAll(segs: seq<Segment>, entries: seq<(string, SampleValue)>): Result<string, string> {
    if |segs| == 0 then Ok([])
    else
      var head :- Expected(segs[0], entries);
      var tail :- ExpectedAll(segs[1..], entries);
      Ok(head + tail)
  }

  // ---- scanning lemmas ----

  lemma NotOpening(t: string)
    requires |t| < 2 || t[0] != '{' || t[1] != '{'
    ensures !StartsWith(t, "{{")
  {
    if |t| >= 2 {
      assert t[..2][0] == t[0] && t[..2][1] == t[1];
    }
  }

  lemma {:induction false} TrimStartSpaces(ws: string, x: string)
    requires AllSpace(ws)
    requires |x| > 0 ==> !IsSpace(x[0])
    ensures TrimStart(ws + x) == x
  {
    if |ws| == 0 {
      assert ws + x == x;
    } else {
      assert (ws + x)[1..] == ws[1..] + x;
      TrimStartSpaces(ws[1..], x);
    }
  }

  lemma InertTail(u: string)
    requires Inert(u) && |u| > 0
    ensures Inert(u[1..])
  {
    forall i | 0 <= i < |u| - 1 && u[1..][i] == '{' ensures i + 1 < |u| - 1 && u[1..][i + 1] != '{' {
      assert u[i + 1] == '{';
    }
  }

  lemma InertConcat(a: string, b: string)
    requires Inert(a) && Inert(b)
    ensures Inert(a + b)
  {
    forall i | 0 <= i < |a + b| && (a + b)[i] == '{' ensures i + 1 < |a + b| && (a + b)[i + 1] != '{' {
      if i < |a| {
        assert a[i] == '{';
      } else {
        assert b[i - |a|] == '{';
      }
    }
  }

  /** A text without `{` is inert. */
  lemma BraceFreeInert(s: string)
    requires forall i :: 0 <= i < |s| ==> s[i] != '{'
    ensures Inert(s)
  {
  }

  lemma SpacesInert(s: string)
    requires AllSpace(s)
    ensures Inert(s)
  {
    BraceFreeInert(s);
  }

  lemma WordInert(s: string)
    requires IsWord(s)
    ensures Inert(s)
  {
    BraceFreeInert(s);
  }

  lemma ConsSplit(u: string, x: string)
    requires |u| > 0
    ensures [u[0]] + (u[1..] + x) == u + x
  {
    assert u == [u[0]] + u[1..];
  }

  lemma SplitAfter(u: string, r: string)
    requires |u| > 0
    ensures (u + r)[1..] == u[1..] + r && (u + r)[0] == u[0]
  {
  }

  /** Copying an inert prefix: no key match starts inside it. */
  lemma {:induction false} InertKey(u: string, r: string, key: string, v: string)
    requires Inert(u)
    ensures ReplaceKey(u + r, key, v) == u + ReplaceKey(r, key, v)
    decreases |u|
  {
    if |u| == 0 {
      assert u + r == r;
    } else {
      var t := u + r;
      NotOpening(t);
      assert KeyMatch(t, key).None?;
      assert ReplaceKey(t, key, v) == [t[0]] + ReplaceKey(t[1..], key, v);
      SplitAfter(u, r);
      InertTail(u);
      InertKey(u[1..], r, key, v);
      ConsSplit(u, ReplaceKey(r, key, v));
    }
  }

  /** `x` with `u` put in front of its text, when it has one. */
  function Prefixed(u: string, x: Result<string, string>): Result<string, string> {
    if x.Ok? then Ok(u + x.value) else x
  }

  lemma PrefixedEmpty(u: string, x: Result<string, string>)
    requires |u| == 0
    ensures Prefixed(u, x) == x
  {
    if x.Ok? {
      assert u + x.value == x.value;
    }
  }

  lemma PrefixedTwice(u: string, x: Result<string, string>)
    requires |u| > 0
    ensures Prefixed([u[0]], Prefixed(u[1..], x)) == Prefixed(u, x)
  {
    if x.Ok? {
      ConsSplit(u, x.value);
    }
  }

  /** Copying an inert prefix: no filter match starts inside it. */
  lemma {:induction false} InertFilters(u: string, r: string, entries: seq<(string, SampleValue)>)
    requires Inert(u)
    ensures ApplyFilters(u + r, entries) == Prefixed(u, ApplyFilters(r, entries))
    decreases |u|
  {
    if |u| == 0 {
      assert u + r == r;
      PrefixedEmpty(u, ApplyFilters(r, entries));
    } else {
      var t := u + r;
      NotOpening(t);
      assert FilterMatch(t).None?;
      assert ApplyFilters(t, entries) == Prefixed([t[0]], ApplyFilters(t[1..], entries));
      SplitAfter(u, r);
      InertTail(u);
      InertFilters(u[1..], r, entries);
      PrefixedTwice(u, ApplyFilters(r, entries));
    }
  }

  // ---- how each piece scans ----

  lemma TrimStartWord(x: string)
    requires |x| > 0 && IsWordChar(x[0])
    ensures TrimStart(x) == x
  {
    WordNotSpace(x[0]);
  }

  lemma WordNotSpace(c: char)
    requires IsWordChar(c)
    ensures !IsSpace(c) && c != '{' && c != '}' && c != '"'
  {
  }

  lemma WordStart(k: string, x: string)
    requires IsWord(k)
    ensures (k + x)[0] == k[0] && IsWordChar(k[0]) && !IsSpace(k[0])
  {
  }

  /** A word that is not the placeholder's key does not match it: either it
      is not a prefix of the key and what follows, or it is a strict prefix
      of the key and a word character follows it. */
  lemma KeyMismatch(k: string, x: string, key: string)
    requires IsWord(k) && IsWord(key) && k != key
    requires |x| > 0 ==> !IsWordChar(x[0])
    ensures StartsWith(k + x, key) ==> |key| < |k| && IsWordChar((k + x)[|key|])
  {
    if |key| == |k| {
      assert (k + x)[..|key|] == k;
    } else if |key| > |k| {
      if |key| <= |k + x| {
        assert (k + x)[..|key|][|k|] == x[0];
        assert IsWordChar(key[|k|]);
      }
    } else {
      assert (k + x)[|key|] == k[|key|];
    }
  }

  lemma PlaceholderText(lead: string, k: string, trail: string, r: string)
    ensures Raw(Placeholder(lead, k, trail)) + r == "{{" + (lead + (k + (trail + ("}}" + r))))
  {
    AppendAssoc(trail, "}}", r);
    AppendAssoc(k, trail + "}}", r);
    AppendAssoc(lead, k + (trail + "}}"), r);
    AppendAssoc("{{", lead + (k + (trail + "}}")), r);
  }

  /** After `{{` and the lead, the key text. */
  lemma PlaceholderOpening(lead: string, k: string, trail: string, r: string)
    requires WellFormed(Placeholder(lead, k, trail))
    ensures var t := Raw(Placeholder(lead, k, trail)) + r;
            Expect(t, "{{").Some? && TrimStart(Expect(t, "{{").value) == k + (trail + ("}}" + r))
  {
    PlaceholderText(lead, k, trail, r);
    ExpectPrefix("{{", lead + (k + (trail + ("}}" + r))));
    WordStart(k, trail + ("}}" + r));
    TrimStartSpaces(lead, k + (trail + ("}}" + r)));
  }

  /** The placeholder of `key` matches as a whole. */
  lemma PlaceholderMatch(lead: string, k: string, trail: string, r: string)
    requires WellFormed(Placeholder(lead, k, trail))
    ensures KeyMatch(Raw(Placeholder(lead, k, trail)) + r, k) == Some(r)
  {
    PlaceholderOpening(lead, k, trail, r);
    ExpectPrefix(k, trail + ("}}" + r));
    TrimStartSpaces(trail, "}}" + r);
    ExpectPrefix("}}", r);
  }

  lemma SpaceNotWord(c: char)
    requires IsSpace(c)
    ensures !IsWordChar(c)
  {
  }

  /** What follows a key inside a placeholder starts with no `\w`
      character. */
  lemma ClosingNotWord(trail: string, r: string)
    requires AllSpace(trail)
    ensures !IsWordChar((trail + ("}}" + r))[0])
  {
    if |trail| > 0 {
      assert (trail + ("}}" + r))[0] == trail[0];
      SpaceNotWord(trail[0]);
    } else {
      assert trail + ("}}" + r) == "}}" + r;
    }
  }

  /** A placeholder of another key does not match. */
  lemma PlaceholderNoMatch(lead: string, k: string, trail: string, r: string, key: string)
    requires WellFormed(Placeholder(lead, k, trail)) && IsWord(key) && k != key
    ensures KeyMatch(Raw(Placeholder(lead, k, trail)) + r, key).None?
  {
    PlaceholderOpening(lead, k, trail, r);
    var x := k + (trail + ("}}" + r));
    if StartsWith(x, key) {
      var rest := x[|key|..];
      assert Expect(x, key) == Some(rest);
      assert Expect(TrimStart(rest), "}}").None? by {
        ClosingNotWord(trail, r);
        KeyMismatch(k, trail + ("}}" + r), key);
        assert rest[0] == x[|key|];
        TrimStartWord(rest);
        assert rest[..2][0] == rest[0];
      }
    } else {
      assert Expect(x, key).None?;
    }
  }

  /** The filter's text from its lead on, followed by `r`. */
  function FilterBody(lead: string, dot: char, b1: string, b2: string, name: string, trail: string, r: string): string {
    lead + (FormatSpec(dot) + (b1 + ("|" + (b2 + ("format(" + (name + (")" + (trail + ("}}" + r)))))))))
  }

  lemma FormattedText(lead: string, dot: char, b1: string, b2: string, name: string, trail: string, r: string)
    ensures Raw(Formatted(lead, dot, b1, b2, name, trail)) + r == "{{" + FilterBody(lead, dot, b1, b2, name, trail, r)
  {
    AppendAssoc(trail, "}}", r);
    AppendAssoc(")", trail + "}}", r);
    AppendAssoc(name, ")" + (trail + "}}"), r);
    AppendAssoc("format(", name + (")" + (trail + "}}")), r);
    AppendAssoc(b2, "format(" + (name + (")" + (trail + "}}"))), r);
    AppendAssoc("|", b2 + ("format(" + (name + (")" + (trail + "}}")))), r);
    AppendAssoc(b1, "|" + (b2 + ("format(" + (name + (")" + (trail + "}}"))))), r);
    AppendAssoc(FormatSpec(dot), b1 + ("|" + (b2 + ("format(" + (name + (")" + (trail + "}}")))))), r);
    AppendAssoc(lead, FormatSpec(dot) + (b1 + ("|" + (b2 + ("format(" + (name + (")" + (trail + "}}"))))))), r);
    AppendAssoc("{{", lead + (FormatSpec(dot) + (b1 + ("|" + (b2 + ("format(" + (name + (")" + (trail + "}}")))))))), r);
  }

  /** After `{{` and the lead of a filter, its quoted format. */
  lemma FormattedOpening(lead: string, dot: char, b1: string, b2: string, name: string, trail: string, r: string)
    requires WellFormed(Formatted(lead, dot, b1, b2, name, trail))
    ensures var t := Raw(Formatted(lead, dot, b1, b2, name, trail)) + r;
            var x := FormatSpec(dot) + (b1 + ("|" + (b2 + ("format(" + (name + (")" + (trail + ("}}" + r))))))));
            Expect(t, "{{") == Some(FilterBody(lead, dot, b1, b2, name, trail, r)) && TrimStart(Expect(t, "{{").value) == x
  {
    FormattedText(lead, dot, b1, b2, name, trail, r);
    var x := FormatSpec(dot) + (b1 + ("|" + (b2 + ("format(" + (name + (")" + (trail + ("}}" + r))))))));
    ExpectPrefix("{{", FilterBody(lead, dot, b1, b2, name, trail, r));
    assert x[0] == '"';
    TrimStartSpaces(lead, x);
  }

  /** No key matches at a filter. */
  lemma FormattedNoKey(lead: string, dot: char, b1: string, b2: string, name: string, trail: string, r: string, key: string)
    requires WellFormed(Formatted(lead, dot, b1, b2, name, trail)) && IsWord(key)
    ensures KeyMatch(Raw(Formatted(lead, dot, b1, b2, name, trail)) + r, key).None?
  {
    FormattedOpening(lead, dot, b1, b2, name, trail, r);
    var x := FormatSpec(dot) + (b1 + ("|" + (b2 + ("format(" + (name + (")" + (trail + ("}}" + r))))))));
    WordNotSpace(key[0]);
    assert x[0] == '"';
    assert !StartsWith(x, key) by {
      if |key| <= |x| {
        assert x[..|key|][0] == x[0];
      }
    }
  }

  /** No filter matches at a placeholder. */
  lemma PlaceholderNoFilter(lead: string, k: string, trail: string, r: string)
    requires WellFormed(Placeholder(lead, k, trail))
    ensures FilterMatch(Raw(Placeholder(lead, k, trail)) + r).None?
  {
    PlaceholderOpening(lead, k, trail, r);
    var x := k + (trail + ("}}" + r));
    assert ExpectSpec(x).None? by {
      WordNotSpace(k[0]);
      assert x[0] == k[0];
    }
    assert FilterOpening(Raw(Placeholder(lead, k, trail)) + r).None?;
  }

  lemma WordRunOf(w: string, x: string)
    requires IsWord(w) && (|x| > 0 ==> !IsWordChar(x[0]))
    ensures WordRun(w + x) == |w| && (w + x)[..|w|] == w && (w + x)[|w|..] == x
  {
  }

  /** The tail of a filter after `format(`. */
  lemma FormattedClosing(name: string, trail: string, r: string)
    requires IsWord(name) && AllSpace(trail)
    ensures FilterClosing(name + (")" + (trail + ("}}" + r)))) == Some((r, name))
  {
    var t := name + (")" + (trail + ("}}" + r)));
    WordRunOf(name, ")" + (trail + ("}}" + r)));
    ExpectPrefix(")", trail + ("}}" + r));
    TrimStartSpaces(trail, "}}" + r);
    ExpectPrefix("}}", r);
  }

  /** White space and then the literal `p`. */
  lemma ExpectAfterSpaces(ws: string, p: string, x: string)
    requires AllSpace(ws) && |p| > 0 && !IsSpace(p[0])
    ensures Expect(TrimStart(ws + (p + x)), p) == Some(x)
  {
    TrimStartSpaces(ws, p + x);
    ExpectPrefix(p, x);
  }

  lemma ExpectSpecOf(dot: char, x: string)
    requires !IsLineTerminator(dot)
    ensures ExpectSpec(FormatSpec(dot) + x) == Some(x)
  {
    assert (FormatSpec(dot) + x)[6..] == x;
  }

  /** The quoted format, the bar and `format(` of a filter, read in turn. */
  lemma SpecToFormat(dot: char, b1: string, b2: string, w: string)
    requires !IsLineTerminator(dot) && AllSpace(b1) && AllSpace(b2)
    ensures var y := "|" + (b2 + ("format(" + w));
            ExpectSpec(FormatSpec(dot) + (b1 + y)) == Some(b1 + y)
            && Expect(TrimStart(b1 + y), "|") == Some(b2 + ("format(" + w))
            && Expect(TrimStart(b2 + ("format(" + w)), "format(") == Some(w)
  {
    ExpectSpecOf(dot, b1 + ("|" + (b2 + ("format(" + w))));
    ExpectAfterSpaces(b1, "|", b2 + ("format(" + w));
    ExpectAfterSpaces(b2, "format(", w);
  }

  lemma FormattedOpens(lead: string, dot: char, b1: string, b2: string, name: string, trail: string, r: string)
    requires WellFormed(Formatted(lead, dot, b1, b2, name, trail))
    ensures FilterOpening(Raw(Formatted(lead, dot, b1, b2, name, trail)) + r) == Some(name + (")" + (trail + ("}}" + r))))
  {
    FormattedOpening(lead, dot, b1, b2, name, trail, r);
    SpecToFormat(dot, b1, b2, name + (")" + (trail + ("}}" + r))));
  }

  /** A filter matches as a whole and captures its name. */
  lemma FormattedMatch(lead: string, dot: char, b1: string, b2: string, name: string, trail: string, r: string)
    requires WellFormed(Formatted(lead, dot, b1, b2, name, trail))
    ensures FilterMatch(Raw(Formatted(lead, dot, b1, b2, name, trail)) + r) == Some((r, name))
  {
    FormattedOpens(lead, dot, b1, b2, name, trail, r);
    FormattedClosing(name, trail, r);
  }

  // ---- each piece in a pass ----

  predicate BraceFree(s: string) {
    forall i :: 0 <= i < |s| ==> s[i] != '{'
  }

  lemma BraceFreeConcat(a: string, b: string)
    requires BraceFree(a) && BraceFree(b)
    ensures BraceFree(a + b)
  {
    forall i | 0 <= i < |a + b| ensures (a + b)[i] != '{' {
      if i < |a| {
        assert (a + b)[i] == a[i];
      } else {
        assert (a + b)[i] == b[i - |a|];
      }
    }
  }

  /** A single `{` followed by an inert text that does not start with `{`. */
  lemma BraceThenInert(s: string)
    requires Inert(s) && |s| > 0 && s[0] != '{'
    ensures Inert("{" + s)
  {
    forall i | 0 <= i < |"{" + s| && ("{" + s)[i] == '{' ensures i + 1 < |"{" + s| && ("{" + s)[i + 1] != '{' {
      if i > 0 {
        assert s[i - 1] == '{';
      }
    }
  }

  lemma RawDrop(s: string)
    ensures ("{{" + s)[1..] == "{" + s && ("{{" + s)[0] == '{'
  {
  }

  /** The text of a placeholder after its first `{` is inert. */
  lemma PlaceholderTailInert(lead: string, k: string, trail: string)
    requires WellFormed(Placeholder(lead, k, trail))
    ensures var u := Raw(Placeholder(lead, k, trail)); |u| > 0 && u[0] == '{' && Inert(u[1..])
  {
    var s := lead + (k + (trail + "}}"));
    assert BraceFree("}}");
    BraceFreeConcat(trail, "}}");
    BraceFreeConcat(k, trail + "}}");
    BraceFreeConcat(lead, k + (trail + "}}"));
    BraceFreeInert(s);
    RawDrop(s);
    BraceThenInert(s);
  }

  lemma SpecInert(dot: char)
    ensures Inert(FormatSpec(dot)) && FormatSpec(dot)[0] == '"'
  {
  }

  /** The text of a filter after its first `{` is inert: the one `{` it may
      hold is the format's `.`, and a `2` follows that. */
  lemma FormattedTailInert(lead: string, dot: char, b1: string, b2: string, name: string, trail: string)
    requires WellFormed(Formatted(lead, dot, b1, b2, name, trail))
    ensures var u := Raw(Formatted(lead, dot, b1, b2, name, trail)); |u| > 0 && u[0] == '{' && Inert(u[1..])
  {
    var a := name + (")" + (trail + "}}"));
    var c := b1 + ("|" + (b2 + ("format(" + a)));
    assert BraceFree("}}") && BraceFree(")") && BraceFree("|") && BraceFree("format(");
    BraceFreeConcat(trail, "}}");
    BraceFreeConcat(")", trail + "}}");
    BraceFreeConcat(name, ")" + (trail + "}}"));
    BraceFreeConcat("format(", a);
    BraceFreeConcat(b2, "format(" + a);
    BraceFreeConcat("|", b2 + ("format(" + a));
    BraceFreeConcat(b1, "|" + (b2 + ("format(" + a)));
    BraceFreeInert(c);
    SpecInert(dot);
    InertConcat(FormatSpec(dot), c);
    SpacesInert(lead);
    InertConcat(lead, FormatSpec(dot) + c);
    var s := lead + (FormatSpec(dot) + c);
    assert s[0] != '{' by {
      if |lead| > 0 {
        assert s[0] == lead[0];
      } else {
        assert s == FormatSpec(dot) + c;
      }
    }
    RawDrop(s);
    BraceThenInert(s);
  }

  lemma TailInert(seg: Segment)
    requires WellFormed(seg) && !seg.Plain?
    ensures |Raw(seg)| > 0 && Raw(seg)[0] == '{' && Inert(Raw(seg)[1..])
  {
    match seg
    case Placeholder(lead, k, trail) => PlaceholderTailInert(lead, k, trail);
    case Formatted(lead, dot, b1, b2, name, trail) => FormattedTailInert(lead, dot, b1, b2, name, trail);
  }

  /** A piece no key match starts at is copied whole. */
  lemma NoKeyCopies(u: string, r: string, key: string, v: string)
    requires |u| > 0 && Inert(u[1..]) && KeyMatch(u + r, key).None?
    ensures ReplaceKey(u + r, key, v) == u + ReplaceKey(r, key, v)
  {
    var t := u + r;
    assert ReplaceKey(t, key, v) == [t[0]] + ReplaceKey(t[1..], key, v);
    SplitAfter(u, r);
    InertKey(u[1..], r, key, v);
    ConsSplit(u, ReplaceKey(r, key, v));
  }

  /** A piece no filter match starts at is copied whole. */
  lemma NoFilterCopies(u: string, r: string, entries: seq<(string, SampleValue)>)
    requires |u| > 0 && Inert(u[1..]) && FilterMatch(u + r).None?
    ensures ApplyFilters(u + r, entries) == Prefixed(u, ApplyFilters(r, entries))
  {
    var t := u + r;
    assert ApplyFilters(t, entries) == Prefixed([t[0]], ApplyFilters(t[1..], entries));
    SplitAfter(u, r);
    InertFilters(u[1..], r, entries);
    PrefixedTwice(u, ApplyFilters(r, entries));
  }

  /** One key pass on a piece: the placeholder of that key becomes the
      value, every other piece stays. */
  function FillKey(seg: Segment, key: string, v: string): Segment {
    if seg.Placeholder? && seg.key == key then Plain(v) else seg
  }

  lemma SegmentKey(seg: Segment, r: string, key: string, v: string)
    requires WellFormed(seg) && IsWord(key)
    ensures ReplaceKey(Raw(seg) + r, key, v) == Raw(FillKey(seg, key, v)) + ReplaceKey(r, key, v)
  {
    match seg
    case Plain(text) =>
      InertKey(text, r, key, v);
    case Placeholder(lead, k, trail) =>
      if k == key {
        PlaceholderMatch(lead, k, trail, r);
      } else {
        PlaceholderNoMatch(lead, k, trail, r, key);
        TailInert(seg);
        NoKeyCopies(Raw(seg), r, key, v);
      }
    case Formatted(lead, dot, b1, b2, name, trail) =>
      FormattedNoKey(lead, dot, b1, b2, name, trail, r, key);
      TailInert(seg);
      NoKeyCopies(Raw(seg), r, key, v);
  }

  /** What a piece gives in the filter pass: a filter its amount, any other
      piece its own text. */
  function Scanned(seg: Segment, entries: seq<(string, SampleValue)>): Result<string, string> {
    match seg
    case Formatted(_, _, _, _, name, _) => Amount(entries, name)
    case _ => Ok(Raw(seg))
  }

  /** `x` after `head`, unless `head` failed. */
  function Then(head: Result<string, string>, x: Result<string, string>): Result<string, string> {
    if head.Err? then head else Prefixed(head.value, x)
  }

  lemma SegmentFilters(seg: Segment, r: string, entries: seq<(string, SampleValue)>)
    requires WellFormed(seg)
    ensures ApplyFilters(Raw(seg) + r, entries) == Then(Scanned(seg, entries), ApplyFilters(r, entries))
  {
    match seg
    case Plain(text) =>
      InertFilters(text, r, entries);
    case Placeholder(lead, k, trail) =>
      PlaceholderNoFilter(lead, k, trail, r);
      TailInert(seg);
      NoFilterCopies(Raw(seg), r, entries);
    case Formatted(lead, dot, b1, b2, name, trail) =>
      FormattedMatch(lead, dot, b1, b2, name, trail, r);
  }

  // ---- whole templates ----

  function FillAll(segs: seq<Segment>, key: string, v: string): (r: seq<Segment>)
    ensures |r| == |segs| && forall i :: 0 <= i < |segs| ==> r[i] == FillKey(segs[i], key, v)
  {
    if |segs| == 0 then [] else [FillKey(segs[0], key, v)] + FillAll(segs[1..], key, v)
  }

  lemma RenderCons(seg: Segment, rest: seq<Segment>)
    ensures Render([seg] + rest) == Raw(seg) + Render(rest)
  {
    assert ([seg] + rest)[1..] == rest;
  }

  /** A key pass over a well-formed template fills exactly the placeholders
      of that key. */
  lemma {:induction false} RenderKey(segs: seq<Segment>, key: string, v: string)
    requires AllWellFormed(segs) && IsWord(key)
    ensures ReplaceKey(Render(segs), key, v) == Render(FillAll(segs, key, v))
  {
    if |segs| == 0 {
    } else {
      SegmentKey(segs[0], Render(segs[1..]), key, v);
      RenderKey(segs[1..], key, v);
      RenderCons(FillKey(segs[0], key, v), FillAll(segs[1..], key, v));
    }
  }

  /** The filter pass over the pieces, one after the other. */
  function ScannedAll(segs: seq<Segment>, entries: seq<(string, SampleValue)>): Result<string, string> {
    if |segs| == 0 then Ok([])
    else Then(Scanned(segs[0], entries), ScannedAll(segs[1..], entries))
  }

  /** The filter pass over a well-formed template computes every filter's
      amount and copies everything else. */
  lemma {:induction false} RenderFilters(segs: seq<Segment>, entries: seq<(string, SampleValue)>)
    requires AllWellFormed(segs)
    ensures ApplyFilters(Render(segs), entries) == ScannedAll(segs, entries)
  {
    if |segs| == 0 {
    } else {
      SegmentFilters(segs[0], Render(segs[1..]), entries);
      RenderFilters(segs[1..], entries);
    }
  }

  /** All the key passes on a piece: a placeholder of a sample field becomes
      the first such field's text. */
  function Resolve(seg: Segment, entries: seq<(string, SampleValue)>): Segment {
    if seg.Placeholder? && Lookup(entries, seg.key).Some? then Plain(Shown(Lookup(entries, seg.key).value)) else seg
  }

  function ResolveAll(segs: seq<Segment>, entries: seq<(string, SampleValue)>): (r: seq<Segment>)
    ensures |r| == |segs| && forall i :: 0 <= i < |segs| ==> r[i] == Resolve(segs[i], entries)
  {
    if |segs| == 0 then [] else [Resolve(segs[0], entries)] + ResolveAll(segs[1..], entries)
  }

  /** The sample fields the passes can use: word keys, and values whose
      text starts no match. */
  predicate Usable(entries: seq<(string, SampleValue)>) {
    forall i :: 0 <= i < |entries| ==> IsWord(entries[i].0) && Inert(Shown(entries[i].1))
  }

  lemma FillThenResolve(segs: seq<Segment>, entries: seq<(string, SampleValue)>)
    requires |entries| > 0
    ensures ResolveAll(FillAll(segs, entries[0].0, Shown(entries[0].1)), entries[1..]) == ResolveAll(segs, entries)
  {
    var f := FillAll(segs, entries[0].0, Shown(entries[0].1));
    forall i | 0 <= i < |segs| ensures Resolve(f[i], entries[1..]) == Resolve(segs[i], entries) {
    }
  }

  lemma FillKeepsWellFormed(segs: seq<Segment>, key: string, v: string)
    requires AllWellFormed(segs) && Inert(v)
    ensures AllWellFormed(FillAll(segs, key, v))
  {
  }

  /** The key passes, one per sample field, fill every placeholder of a
      sample field with the text of the first field of that name and leave
      the others. */
  lemma {:induction false} RenderKeyPasses(segs: seq<Segment>, entries: seq<(string, SampleValue)>)
    requires AllWellFormed(segs) && Usable(entries)
    ensures KeyPasses(Render(segs), entries) == Render(ResolveAll(segs, entries))
    decreases |entries|
  {
    if |entries| == 0 {
      assert ResolveAll(segs, entries) == segs;
    } else {
      var key, v := entries[0].0, Shown(entries[0].1);
      RenderKey(segs, key, v);
      FillKeepsWellFormed(segs, key, v);
      RenderKeyPasses(FillAll(segs, key, v), entries[1..]);
      FillThenResolve(segs, entries);
    }
  }

  lemma {:induction false} ResolveThenScan(segs: seq<Segment>, entries: seq<(string, SampleValue)>)
    ensures ScannedAll(ResolveAll(segs, entries), entries) == ExpectedAll(segs, entries)
  {
    if |segs| == 0 {
    } else {
      ResolveThenScan(segs[1..], entries);
      assert ResolveAll(segs, entries)[1..] == ResolveAll(segs[1..], entries);
    }
  }

  lemma SampleKeysAreWords()
    ensures IsWord("employee_name")
            && IsWord("employee_id")
            && IsWord("employee_email")
            && IsWord("department")
            && IsWord("month")
            && IsWord("basic_salary")
            && IsWord("allowances")
            && IsWord("deductions")
            && IsWord("net_pay")
            && IsWord("generated_date")
  {
    DetailKeysAreWords();
    AmountKeysAreWords();
  }

  lemma DetailKeysAreWords()
    ensures IsWord("employee_name") && IsWord("employee_id") && IsWord("employee_email")
            && IsWord("department") && IsWord("month")
  {
  }

  lemma AmountKeysAreWords()
    ensures IsWord("basic_salary") && IsWord("allowances") && IsWord("deductions")
            && IsWord("net_pay") && IsWord("generated_date")
  {
  }

  lemma SampleTextsInert(today: string)
    requires Inert(today)
    ensures Inert("John Doe")
            && Inert("EMP12AB34CD")
            && Inert("john@company.com")
            && Inert("Engineering")
            && Inert("January 2025")
            && Inert(NatText(50000)) && Inert(NatText(5000)) && Inert(NatText(2000)) && Inert(NatText(53000))
  {
    BraceFreeInert("John Doe");
    BraceFreeInert("EMP12AB34CD");
    BraceFreeInert("john@company.com");
    BraceFreeInert("Engineering");
    BraceFreeInert("January 2025");
    BraceFreeInert(NatText(50000));
    BraceFreeInert(NatText(5000));
    BraceFreeInert(NatText(2000));
    BraceFreeInert(NatText(53000));
  }

  lemma SampleUsable(today: string)
    requires Inert(today)
    ensures Usable(SampleData(today))
  {
    SampleKeysAreWords();
    SampleTextsInert(today);
  }

  /** The preview of a template written as well-formed pieces: each piece in
      turn as the reference reading says, or the message of the first
      filter whose field has no `toFixed`. */
  lemma PreviewOfPieces(segs: seq<Segment>, today: string)
    requires AllWellFormed(segs) && Inert(today) && !AllSpace(Render(segs))
    ensures var r := GeneratePreview(Render(segs), today);
            match ExpectedAll(segs, SampleData(today))
            case Ok(html) => r == Preview(html, "")
            case Err(m) => r == Preview("", PreviewFailed + m)
  {
    var entries := SampleData(today);
    SampleUsable(today);
    RenderKeyPasses(segs, entries);
    var resolved := ResolveAll(segs, entries);
    assert AllWellFormed(resolved) by {
      forall i | 0 <= i < |resolved| ensures WellFormed(resolved[i]) {
        if segs[i].Placeholder? && Lookup(entries, segs[i].key).Some? {
          var j :| 0 <= j < |entries| && entries[j] == (segs[i].key, Lookup(entries, segs[i].key).value);
        }
      }
    }
    RenderFilters(resolved, entries);
    ResolveThenScan(segs, entries);
  }

  // ---- the default template's amount cells ----

  lemma Fifty()
    ensures NatText(50000) == "50000"
  {
    assert NatText(5) == "5";
    assert NatText(50) == "50";
    assert NatText(500) == "500";
    assert NatText(5000) == "5000";
  }

  /** The entry at `i` is the first of its name. */
  lemma {:induction false} LookupAt(entries: seq<(string, SampleValue)>, i: nat, name: string)
    requires i < |entries| && entries[i].0 == name
    requires forall j :: 0 <= j < i ==> entries[j].0 != name
    ensures Lookup(entries, name) == Some(entries[i].1)
  {
    if i > 0 {
      LookupAt(entries[1..], i - 1, name);
    }
  }

  lemma BasicSalaryAmount(today: string)
    ensures Amount(SampleData(today), "basic_salary") == Ok(Rupee + "50000" + ".00")
  {
    var e := SampleData(today);
    assert e[0].0[0] == 'e' && e[1].0[0] == 'e' && e[2].0[0] == 'e';
    assert |e[3].0| == 10 && |e[4].0| == 5;
    LookupAt(e, 5, "basic_salary");
    Fifty();
  }

  const CellOpen: string := "<td style=\"text-align: right;\">"
  const CellClose: string := "</td>"
  /** `{{ "%.2f"|format(basic_salary) }}`, written in its pieces. */
  const SalaryFilter: string := "{{" + (" " + ("\"%.2f\"" + ("|" + ("format(" + ("basic_salary" + (")" + (" " + "}}")))))))
  const SalaryPiece: Segment := Formatted(" ", '.', "", "", "basic_salary", " ")

  lemma SalaryFilterText()
    ensures Raw(SalaryPiece) == SalaryFilter
  {
    assert FormatSpec('.') == "\"%.2f\"";
  }

  function SalaryCell(): seq<Segment> {
    [Plain(CellOpen + Rupee), SalaryPiece, Plain(CellClose)]
  }

  lemma SalaryCellFormed()
    ensures AllWellFormed(SalaryCell())
  {
    var segs := SalaryCell();
    CellTextsInert();
    assert WellFormed(segs[1]) by {
      assert IsWord("basic_salary");
    }
  }

  lemma CellTextsInert()
    ensures Inert(CellOpen + Rupee) && Inert(CellClose)
  {
    assert BraceFree(CellOpen + Rupee) by {
      assert BraceFree(CellOpen) && BraceFree(Rupee);
      BraceFreeConcat(CellOpen, Rupee);
    }
    BraceFreeInert(CellOpen + Rupee);
    assert BraceFree(CellClose);
    BraceFreeInert(CellClose);
  }

  lemma SalaryCellText()
    ensures Render(SalaryCell()) == (CellOpen + Rupee) + (SalaryFilter + CellClose)
    ensures !AllSpace(Render(SalaryCell()))
  {
    var segs := SalaryCell();
    SalaryFilterText();
    assert Render(segs[2..]) == CellClose;
    assert Render(segs[1..]) == SalaryFilter + CellClose;
    assert Render(segs)[0] == '<';
  }

  lemma SalaryCellExpected(today: string)
    ensures ExpectedAll(SalaryCell(), SampleData(today)) == Ok((CellOpen + Rupee) + ((Rupee + "50000" + ".00") + CellClose))
  {
    var segs := SalaryCell();
    BasicSalaryAmount(today);
    assert ExpectedAll(segs[3..], SampleData(today)) == Ok([]);
    assert CellClose + [] == CellClose;
    assert ExpectedAll(segs[2..], SampleData(today)) == Ok(CellClose);
    assert ExpectedAll(segs[1..], SampleData(today)) == Ok((Rupee + "50000" + ".00") + CellClose);
  }

  /** An amount cell of the default template: the template writes its own
      rupee sign in front of a filter that prints one too, so the preview
      shows the sign twice. */
  lemma DoubledRupee(today: string)
    requires Inert(today)
    ensures GeneratePreview((CellOpen + Rupee) + (SalaryFilter + CellClose), today)
            == Preview((CellOpen + Rupee) + ((Rupee + "50000" + ".00") + CellClose), "")
  {
    SalaryCellFormed();
    SalaryCellText();
    SalaryCellExpected(today);
    PreviewOfPieces(SalaryCell(), today);
  }

  /** A template with no placeholder or filter in it previews as itself. */
  lemma InertPreview(t: string, today: string)
    requires Inert(t) && Inert(today) && !AllSpace(t)
    ensures GeneratePreview(t, today) == Preview(t, "")
  {
    var segs := [Plain(t)];
    assert Render(segs) == t + [] == t;
    assert ExpectedAll(segs, SampleData(today)) == Ok(t + []);
    PreviewOfPieces(segs, today);
  }

  /** A placeholder whose key is not a sample field is left as written. */
  lemma UnknownKeyKept(lead: string, key: string, trail: string, today: string)
    requires WellFormed(Placeholder(lead, key, trail)) && Inert(today)
    requires forall i :: 0 <= i < |SampleData(today)| ==> SampleData(today)[i].0 != key
    ensures var t := Raw(Placeholder(lead, key, trail)); GeneratePreview(t, today) == Preview(t, "")
  {
    var segs := [Placeholder(lead, key, trail)];
    var t := Raw(segs[0]);
    assert Render(segs) == t + [] == t;
    assert ExpectedAll(segs, SampleData(today)) == Ok(t + []);
    assert t[0] == '{';
    PreviewOfPieces(segs, today);
  }

  const NamePiece: Segment := Formatted(" ", '.', "", "", "employee_name", " ")

  lemma NameAmountFails(today: string)
    ensures Amount(SampleData(today), "employee_name") == Err(NotAFunction)
  {
    LookupAt(SampleData(today), 0, "employee_name");
  }

  lemma NamePieceFormed()
    ensures AllWellFormed([NamePiece]) && Render([NamePiece]) == Raw(NamePiece) && Raw(NamePiece)[0] == '{'
  {
    assert IsWord("employee_name");
    assert Render([NamePiece]) == Raw(NamePiece) + [];
  }

  /** Formatting a text field as an amount throws, and the preview shows
      the error instead. */
  lemma TextFieldFilterFails(today: string)
    requires Inert(today)
    ensures GeneratePreview(Raw(NamePiece), today) == Preview("", PreviewFailed + NotAFunction)
  {
    NamePieceFormed();
    NameAmountFails(today);
    assert ExpectedAll([NamePiece], SampleData(today)) == Err(NotAFunction);
    PreviewOfPieces([NamePiece], today);
  }
}
