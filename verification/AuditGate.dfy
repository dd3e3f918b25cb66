/** The verdict of the audit gate: the index of exceptions, and the loop over the reported vulnerabilities. */
module AuditGate {
  import opened Options
  import opened AuditParser

  type Day = int
  type Key = (string, string)

  /** A reported vulnerability, as the report yields it. */
  datatype Vuln = Vuln(name: Option<string>, severity: Option<string>, advisory: Option<string>)

  datatype Exception = Exception(severity: string, expires: Day)

  const REQUIRED: set<string> := {"package", "advisory", "severity", "mitigation", "expires_on"}
  const HIGH: set<string> := {"high", "critical"}

  /** Lower case, for the letters A to Z. */
  function Lower(s: string): string {
    seq(|s|, i requires 0 <= i < |s| => if 'A' <= s[i] <= 'Z' then (s[i] as int + 32) as char else s[i])
  }

  function NormalizeSeverity(s: Option<string>): string { if s.Some? then Lower(Strip(s.value)) else "" }
  function NormalizePackage(s: Option<string>): string { if s.Some? then Strip(s.value) else "" }
  function NormalizeAdvisory(s: Option<string>): string { if s.Some? then Lower(Strip(s.value)) else "" }

  function Get(r: Record, field: string): Option<string> { if field in r then Some(r[field]) else None }

  // ---- The index ----

  predicate Complete(r: Record) {
    forall f :: f in REQUIRED ==> f in r && r[f] != ""
  }

  function KeyOf(r: Record): Key {
    (NormalizePackage(Get(r, "package")), NormalizeAdvisory(Get(r, "advisory")))
  }

  /** The date of an entry, read by a date parser that rejects some strings. */
  function DateOf(parse: string -> Option<Day>, r: Record): Option<Day> {
    if "expires_on" in r then parse(r["expires_on"]) else None
  }

  predicate Acceptable(parse: string -> Option<Day>, r: Record) {
    Complete(r) && DateOf(parse, r).Some? && KeyOf(r).0 != "" && KeyOf(r).1 != ""
  }

  function EntryOf(parse: string -> Option<Day>, r: Record): Exception
    requires Acceptable(parse, r)
  {
    Exception(NormalizeSeverity(Get(r, "severity")), DateOf(parse, r).value)
  }

  /** The exceptions are all acceptable, and their keys are unique. */
  ghost predicate ListOk(parse: string -> Option<Day>, rs: seq<Record>) {
    && (forall i :: 0 <= i < |rs| ==> Acceptable(parse, rs[i]))
    && (forall i, j :: 0 <= i < j < |rs| ==> KeyOf(rs[i]) != KeyOf(rs[j]))
  }

  /** `index` maps each key to the value listed with it, and has no other keys. */
  ghost predicate Indexes<K, V>(keys: seq<K>, values: seq<V>, index: map<K, V>)
    requires |keys| == |values|
  {
    && (forall i :: 0 <= i < |keys| ==> keys[i] in index && index[keys[i]] == values[i])
    && (forall k :: k in index ==> k in keys)
  }

  lemma IndexOneMore<K, V>(keys: seq<K>, values: seq<V>, index: map<K, V>, k: K, v: V)
    requires |keys| == |values| && Indexes(keys, values, index) && k !in index
    ensures Indexes(keys + [k], values + [v], index[k := v])
  {
    assert forall x :: x in keys + [k] <==> x in keys || x == k;
  }

  lemma IndexUnique<K, V>(keys: seq<K>, values: seq<V>, a: map<K, V>, b: map<K, V>)
    requires |keys| == |values| && Indexes(keys, values, a) && Indexes(keys, values, b)
    ensures a == b
  {
    forall k ensures k in a <==> k in b {}
    forall k | k in a ensures a[k] == b[k] {}
  }

  function Keys(rs: seq<Record>): (keys: seq<Key>)
    ensures |keys| == |rs| && forall i :: 0 <= i < |rs| ==> keys[i] == KeyOf(rs[i])
  {
    seq(|rs|, i requires 0 <= i < |rs| => KeyOf(rs[i]))
  }

  function Entries(parse: string -> Option<Day>, rs: seq<Record>): (es: seq<Exception>)
    requires forall i :: 0 <= i < |rs| ==> Acceptable(parse, rs[i])
    ensures |es| == |rs| && forall i :: 0 <= i < |rs| ==> es[i] == EntryOf(parse, rs[i])
  {
    seq(|rs|, i requires 0 <= i < |rs| => EntryOf(parse, rs[i]))
  }

  /** The index of a list that is in order. */
  ghost predicate IndexOf(parse: string -> Option<Day>, rs: seq<Record>, index: map<Key, Exception>) {
    ListOk(parse, rs) && Indexes(Keys(rs), Entries(parse, rs), index)
  }

  method BuildIndex(parse: string -> Option<Day>, rs: seq<Record>) returns (index: map<Key, Exception>, errors: nat)
    ensures errors == 0 <==> ListOk(parse, rs)
    ensures errors == 0 ==> IndexOf(parse, rs, index)
  {
    index, errors := map[], 0;
    for i := 0 to |rs|
      invariant errors == 0 <==> ListOk(parse, rs[..i])
      invariant errors == 0 ==> IndexOf(parse, rs[..i], index)
    {
      ghost var before := rs[..i];
      assert rs[..i + 1] == before + [rs[i]];
      ListOkOneMore(parse, before, rs[i]);
      var r := rs[i];
      if !Complete(r) {
        errors := errors + 1;
        continue;
      }
      var date := DateOf(parse, r);
      if date.None? {
        errors := errors + 1;
        continue;
      }
      var key := KeyOf(r);
      if key.0 == "" || key.1 == "" {
        errors := errors + 1;
        continue;
      }
      if key in index {
        if errors == 0 {
          DuplicateKey(parse, before, r, index);
        }
        errors := errors + 1;
        continue;
      }
      if errors == 0 {
        AddEntry(parse, before, r, index);
      }
      index := index[key := Exception(NormalizeSeverity(Get(r, "severity")), date.value)];
    }
    assert rs[..|rs|] == rs;
  }

  lemma ListOkOneMore(parse: string -> Option<Day>, rs: seq<Record>, r: Record)
    ensures ListOk(parse, rs + [r]) <==>
      ListOk(parse, rs) && Acceptable(parse, r) && forall i :: 0 <= i < |rs| ==> KeyOf(rs[i]) != KeyOf(r)
  {
    var all := rs + [r];
    if ListOk(parse, all) {
      assert all[|rs|] == r;
      assert forall i :: 0 <= i < |rs| ==> all[i] == rs[i];
    }
  }

  lemma AddEntry(parse: string -> Option<Day>, rs: seq<Record>, r: Record, index: map<Key, Exception>)
    requires IndexOf(parse, rs, index) && Acceptable(parse, r) && KeyOf(r) !in index
    ensures IndexOf(parse, rs + [r], index[KeyOf(r) := EntryOf(parse, r)])
  {
    forall i | 0 <= i < |rs| ensures KeyOf(rs[i]) != KeyOf(r) {
      assert Keys(rs)[i] in index;
    }
    ListOkOneMore(parse, rs, r);
    IndexOneMore(Keys(rs), Entries(parse, rs), index, KeyOf(r), EntryOf(parse, r));
    KeysOneMore(rs, r);
    EntriesOneMore(parse, rs, r);
  }

  lemma KeysOneMore(rs: seq<Record>, r: Record)
    ensures Keys(rs + [r]) == Keys(rs) + [KeyOf(r)]
  {
  }

  lemma EntriesOneMore(parse: string -> Option<Day>, rs: seq<Record>, r: Record)
    requires Acceptable(parse, r) && forall i :: 0 <= i < |rs| ==> Acceptable(parse, rs[i])
    ensures forall i :: 0 <= i < |rs + [r]| ==> Acceptable(parse, (rs + [r])[i])
    ensures Entries(parse, rs + [r]) == Entries(parse, rs) + [EntryOf(parse, r)]
  {
  }

  lemma DuplicateKey(parse: string -> Option<Day>, rs: seq<Record>, r: Record, index: map<Key, Exception>)
    requires IndexOf(parse, rs, index) && KeyOf(r) in index
    ensures exists i :: 0 <= i < |rs| && KeyOf(rs[i]) == KeyOf(r)
  {
    var i :| 0 <= i < |Keys(rs)| && Keys(rs)[i] == KeyOf(r);
  }

  // ---- The vulnerabilities ----

  /** What the gate makes of one vulnerability: it looks only at named ones of high or critical severity. */
  datatype Finding = Ignored | Unidentified | Found(key: Key, severity: string)

  function Classify(v: Vuln): Finding {
    var severity := NormalizeSeverity(v.severity);
    if severity !in HIGH || v.name.None? || v.name.value == "" then Ignored
    else if NormalizeAdvisory(v.advisory) == "" then Unidentified
    else Found((NormalizePackage(v.name), NormalizeAdvisory(v.advisory)), severity)
  }

  function Findings(vs: seq<Vuln>): (fs: seq<Finding>)
    ensures |fs| == |vs| && forall i :: 0 <= i < |vs| ==> fs[i] == Classify(vs[i])
  {
    seq(|vs|, i requires 0 <= i < |vs| => Classify(vs[i]))
  }

  /** An indexed exception, of blank or equal severity and unexpired, covers the finding. */
  predicate Covered(index: map<Key, Exception>, today: Day, f: Finding)
    requires f.Found?
  {
    f.key in index &&
    (index[f.key].severity == "" || index[f.key].severity == f.severity) && today <= index[f.key].expires
  }

  /** The first finding of its key: the only one whose coverage is checked. */
  ghost predicate First(fs: seq<Finding>, j: nat)
    requires j < |fs|
  {
    fs[j].Found? && forall i :: 0 <= i < j && fs[i].Found? ==> fs[i].key != fs[j].key
  }

  /** The report passes: every finding is identified, and the first of every key is covered. */
  ghost predicate ReportOk(index: map<Key, Exception>, today: Day, fs: seq<Finding>) {
    && (forall j :: 0 <= j < |fs| ==> !fs[j].Unidentified?)
    && (forall j :: 0 <= j < |fs| && First(fs, j) ==> Covered(index, today, fs[j]))
  }

  lemma ReportOkOneMore(index: map<Key, Exception>, today: Day, fs: seq<Finding>, f: Finding)
    ensures ReportOk(index, today, fs + [f]) <==>
      && ReportOk(index, today, fs) && !f.Unidentified?
      && (First(fs + [f], |fs|) ==> Covered(index, today, f))
  {
    var all := fs + [f];
    assert all[|fs|] == f && forall i :: 0 <= i < |fs| ==> all[i] == fs[i];
    forall j | 0 <= j < |fs| ensures First(fs, j) <==> First(all, j) {
      assert forall i :: 0 <= i < j ==> fs[i] == all[i];
    }
    if ReportOk(index, today, all) {
      forall j | 0 <= j < |fs| ensures !fs[j].Unidentified? { assert all[j] == fs[j]; }
    }
  }

  function FoundKeys(fs: seq<Finding>): set<Key> { set f | f in fs && f.Found? :: f.key }

  method CheckVulns(index: map<Key, Exception>, today: Day, vs: seq<Vuln>) returns (errors: nat)
    ensures errors == 0 <==> ReportOk(index, today, Findings(vs))
  {
    errors := 0;
    var seen: set<Key> := {};
    ghost var fs := Findings(vs);
    for j := 0 to |vs|
      invariant errors == 0 <==> ReportOk(index, today, fs[..j])
      invariant seen == FoundKeys(fs[..j])
    {
      assert fs[..j + 1] == fs[..j] + [Classify(vs[j])];
      var more;
      more, seen := CheckVuln(index, today, vs[j], fs[..j], seen);
      errors := errors + more;
    }
    assert fs[..|vs|] == fs;
  }

  /** One turn of the loop: the errors that a vulnerability adds, given the keys seen before. */
  method CheckVuln(index: map<Key, Exception>, today: Day, v: Vuln, ghost before: seq<Finding>, seen: set<Key>)
    returns (errors: nat, seen': set<Key>)
    requires seen == FoundKeys(before)
    ensures ReportOk(index, today, before + [Classify(v)]) <==> ReportOk(index, today, before) && errors == 0
    ensures seen' == FoundKeys(before + [Classify(v)])
  {
    ReportOkOneMore(index, today, before, Classify(v));
    SeenOneMore(before, Classify(v));
    errors, seen' := 0, seen;
    var severity := NormalizeSeverity(v.severity);
    if severity !in HIGH || v.name.None? || v.name.value == "" {
      return;
    }
    if NormalizeAdvisory(v.advisory) == "" {
      return 1, seen;
    }
    var key := (NormalizePackage(v.name), NormalizeAdvisory(v.advisory));
    if key in seen {
      return;
    }
    seen' := seen + {key};
    if key !in index {
      return 1, seen';
    }
    var e := index[key];
    if e.severity != "" && e.severity != severity {
      errors := errors + 1;
    }
    if e.expires < today {
      errors := errors + 1;
    }
  }

  lemma SeenOneMore(fs: seq<Finding>, f: Finding)
    ensures FoundKeys(fs + [f]) == FoundKeys(fs) + (if f.Found? then {f.key} else {})
    ensures First(fs + [f], |fs|) <==> f.Found? && f.key !in FoundKeys(fs)
  {
    var all := fs + [f];
    assert forall g :: g in all <==> g in fs || g == f;
    assert forall i :: 0 <= i < |fs| ==> all[i] == fs[i] && fs[i] in fs;
    if f.Found? && f.key in FoundKeys(fs) {
      var g :| g in fs && g.Found? && g.key == f.key;
      var i :| 0 <= i < |fs| && fs[i] == g;
      assert all[i] == g;
    }
  }

  // ---- The gate ----

  ghost predicate Passes(parse: string -> Option<Day>, rs: seq<Record>, today: Day, vs: seq<Vuln>) {
    exists index :: IndexOf(parse, rs, index) && ReportOk(index, today, Findings(vs))
  }

  /** The exit code of the gate. */
  method Gate(parse: string -> Option<Day>, rs: seq<Record>, today: Day, vs: seq<Vuln>) returns (code: int)
    ensures code == if Passes(parse, rs, today, vs) then 0 else 1
  {
    var index, errors := BuildIndex(parse, rs);
    var more := CheckVulns(index, today, vs);
    if errors == 0 {
      forall other | IndexOf(parse, rs, other) ensures other == index {
        IndexUnique(Keys(rs), Entries(parse, rs), index, other);
      }
    }
    code := if errors + more > 0 then 1 else 0;
  }

  /** The tool: read the list, then judge the report. Nothing is returned when reading raises. */
  method RunGate(parse: string -> Option<Day>, lines: seq<string>, today: Day, vs: seq<Vuln>) returns (code: Option<int>)
    ensures code == match Parsed(lines)
      case None => None
      case Some(rs) => Some(if Passes(parse, rs, today, vs) then 0 else 1)
  {
    var rs := ParseExceptions(lines);
    if rs.None? {
      return None;
    }
    var c := Gate(parse, rs.value, today, vs);
    code := Some(c);
  }

  // ---- What the verdict means ----

  /** The verdict without an index: the list is in order, and every first finding has an entry of its key that
      is of blank or equal severity and unexpired. */
  lemma PassesExact(parse: string -> Option<Day>, rs: seq<Record>, today: Day, vs: seq<Vuln>)
    ensures var fs := Findings(vs);
      Passes(parse, rs, today, vs) <==>
        && ListOk(parse, rs)
        && (forall j :: 0 <= j < |fs| ==> !fs[j].Unidentified?)
        && (forall j :: 0 <= j < |fs| && First(fs, j) ==> exists i :: 0 <= i < |rs| && Excuses(parse, rs[i], today, fs[j]))
  {
    var fs := Findings(vs);
    if ListOk(parse, rs) {
      var index := MakeIndex(parse, rs);
      forall other | IndexOf(parse, rs, other) ensures other == index {
        IndexUnique(Keys(rs), Entries(parse, rs), index, other);
      }
      forall j | 0 <= j < |fs| && fs[j].Found?
        ensures Covered(index, today, fs[j]) <==> exists i :: 0 <= i < |rs| && Excuses(parse, rs[i], today, fs[j])
      {
        CoveredExact(parse, rs, index, today, fs[j]);
      }
    }
  }

  /** The entry is of the finding's key, of blank or equal severity, and not expired. */
  predicate Excuses(parse: string -> Option<Day>, r: Record, today: Day, f: Finding)
    requires f.Found?
  {
    && Acceptable(parse, r) && KeyOf(r) == f.key
    && (EntryOf(parse, r).severity == "" || EntryOf(parse, r).severity == f.severity)
    && today <= EntryOf(parse, r).expires
  }

  lemma CoveredExact(parse: string -> Option<Day>, rs: seq<Record>, index: map<Key, Exception>, today: Day, f: Finding)
    requires IndexOf(parse, rs, index) && f.Found?
    ensures Covered(index, today, f) <==> exists i :: 0 <= i < |rs| && Excuses(parse, rs[i], today, f)
  {
    if Covered(index, today, f) {
      var i :| 0 <= i < |Keys(rs)| && Keys(rs)[i] == f.key;
      assert index[f.key] == Entries(parse, rs)[i];
      assert Excuses(parse, rs[i], today, f);
    }
    if i :| 0 <= i < |rs| && Excuses(parse, rs[i], today, f) {
      assert Keys(rs)[i] == f.key;
      assert index[f.key] == Entries(parse, rs)[i];
    }
  }

  lemma {:induction false} MakeIndex(parse: string -> Option<Day>, rs: seq<Record>) returns (index: map<Key, Exception>)
    requires ListOk(parse, rs)
    ensures IndexOf(parse, rs, index)
  {
    index := map[];
    if rs != [] {
      var n := |rs| - 1;
      assert rs == rs[..n] + [rs[n]];
      ListOkOneMore(parse, rs[..n], rs[n]);
      index := MakeIndex(parse, rs[..n]);
      if KeyOf(rs[n]) in index {
        DuplicateKey(parse, rs[..n], rs[n], index);
      }
      AddEntry(parse, rs[..n], rs[n], index);
      index := index[KeyOf(rs[n]) := EntryOf(parse, rs[n])];
    }
  }

  // ---- The verdict in terms of what is written ----

  /** The same character, but for the case of a letter A to Z. */
  predicate SameLetter(a: char, b: char) {
    || a == b
    || ('A' <= a <= 'Z' && b as int == a as int + 32)
    || ('A' <= b <= 'Z' && a as int == b as int + 32)
  }

  predicate CaseEqual(a: string, b: string) {
    |a| == |b| && forall i :: 0 <= i < |a| ==> SameLetter(a[i], b[i])
  }

  lemma LowerExact(a: string, b: string)
    ensures Lower(a) == Lower(b) <==> CaseEqual(a, b)
  {
    if Lower(a) == Lower(b) {
      assert |a| == |Lower(a)| == |Lower(b)| == |b|;
      forall i | 0 <= i < |a| ensures SameLetter(a[i], b[i]) {
        assert Lower(a)[i] == Lower(b)[i];
      }
    }
  }

  /** The entry has all required fields, a date, and a package and an advisory that are not blank. */
  ghost predicate InOrder(parse: string -> Option<Day>, r: Record) {
    && (forall f :: f in {"package", "advisory", "severity", "mitigation", "expires_on"} ==> f in r && r[f] != "")
    && parse(r["expires_on"]).Some? && Strip(r["package"]) != "" && Strip(r["advisory"]) != ""
  }

  /** Same package, and same advisory but for case; neither counts white space around it. */
  ghost predicate SameIssue(package: string, advisory: string, package': string, advisory': string) {
    Strip(package) == Strip(package') && CaseEqual(Strip(advisory), Strip(advisory'))
  }

  ghost predicate Severe(severity: string) {
    CaseEqual(Strip(severity), "high") || CaseEqual(Strip(severity), "critical")
  }

  /** The vulnerability counts: it has a name and is of high or critical severity. */
  ghost predicate Counts(v: Vuln) {
    v.name.Some? && v.name.value != "" && v.severity.Some? && Severe(v.severity.value)
  }

  ghost predicate HasAdvisory(v: Vuln) { v.advisory.Some? && Strip(v.advisory.value) != "" }

  ghost predicate SameVuln(v: Vuln, w: Vuln)
    requires Counts(v) && HasAdvisory(v) && Counts(w) && HasAdvisory(w)
  {
    SameIssue(v.name.value, v.advisory.value, w.name.value, w.advisory.value)
  }

  /** No earlier vulnerability that counts is the same. */
  ghost predicate FirstSeen(vs: seq<Vuln>, j: nat)
    requires j < |vs| && Counts(vs[j]) && HasAdvisory(vs[j])
  {
    forall i :: 0 <= i < j && Counts(vs[i]) && HasAdvisory(vs[i]) ==> !SameVuln(vs[i], vs[j])
  }

  /** The entry is about the vulnerability, its severity is blank or the same, and it has not expired. */
  ghost predicate Answers(parse: string -> Option<Day>, r: Record, today: Day, v: Vuln)
    requires InOrder(parse, r) && Counts(v) && HasAdvisory(v)
  {
    && SameIssue(r["package"], r["advisory"], v.name.value, v.advisory.value)
    && (Strip(r["severity"]) == "" || CaseEqual(Strip(r["severity"]), Strip(v.severity.value)))
    && today <= parse(r["expires_on"]).value
  }

  lemma EntryExact(parse: string -> Option<Day>, r: Record)
    ensures Acceptable(parse, r) <==> InOrder(parse, r)
    ensures InOrder(parse, r) ==> KeyOf(r) == (Strip(r["package"]), Lower(Strip(r["advisory"])))
    ensures InOrder(parse, r) ==> EntryOf(parse, r) == Exception(Lower(Strip(r["severity"])), parse(r["expires_on"]).value)
  {
  }

  lemma IssueExact(a: string, x: string, b: string, y: string)
    ensures (Strip(a), Lower(Strip(x))) == (Strip(b), Lower(Strip(y))) <==> SameIssue(a, x, b, y)
  {
    LowerExact(Strip(x), Strip(y));
  }

  lemma SevereExact(s: string)
    ensures Lower(Strip(s)) in HIGH <==> Severe(s)
  {
    HighIsNormal("high");
    HighIsNormal("critical");
    LowerExact(Strip(s), "high");
    LowerExact(Strip(s), "critical");
  }

  lemma ClassifyExact(v: Vuln)
    ensures Classify(v).Ignored? <==> !Counts(v)
    ensures Classify(v).Unidentified? <==> Counts(v) && !HasAdvisory(v)
    ensures Counts(v) && HasAdvisory(v) ==>
      Classify(v) == Found((Strip(v.name.value), Lower(Strip(v.advisory.value))), Lower(Strip(v.severity.value)))
  {
    if v.severity.Some? {
      SevereExact(v.severity.value);
    } else {
      assert |"high"| > 0 && |"critical"| > 0;
    }
  }

  lemma ExcusesExact(parse: string -> Option<Day>, r: Record, today: Day, v: Vuln)
    requires InOrder(parse, r) && Counts(v) && HasAdvisory(v)
    ensures Classify(v).Found? && (Excuses(parse, r, today, Classify(v)) <==> Answers(parse, r, today, v))
  {
    EntryExact(parse, r);
    ClassifyExact(v);
    IssueExact(r["package"], r["advisory"], v.name.value, v.advisory.value);
    LowerExact(Strip(r["severity"]), Strip(v.severity.value));
  }

  lemma ListExact(parse: string -> Option<Day>, rs: seq<Record>)
    ensures ListOk(parse, rs) <==>
      && (forall i :: 0 <= i < |rs| ==> InOrder(parse, rs[i]))
      && (forall i, j :: 0 <= i < j < |rs| ==>
           !SameIssue(rs[i]["package"], rs[i]["advisory"], rs[j]["package"], rs[j]["advisory"]))
  {
    forall i | 0 <= i < |rs| {
      EntryExact(parse, rs[i]);
    }
    if forall i :: 0 <= i < |rs| ==> InOrder(parse, rs[i]) {
      forall i, j | 0 <= i < j < |rs| {
        IssueExact(rs[i]["package"], rs[i]["advisory"], rs[j]["package"], rs[j]["advisory"]);
      }
    }
  }

  lemma FirstExact(vs: seq<Vuln>, j: nat)
    requires j < |vs|
    ensures First(Findings(vs), j) <==> Counts(vs[j]) && HasAdvisory(vs[j]) && FirstSeen(vs, j)
  {
    ClassifyExact(vs[j]);
    if Counts(vs[j]) && HasAdvisory(vs[j]) {
      forall i | 0 <= i < j
        ensures Findings(vs)[i].Found? && Findings(vs)[i].key == Findings(vs)[j].key <==>
          Counts(vs[i]) && HasAdvisory(vs[i]) && SameVuln(vs[i], vs[j])
      {
        ClassifyExact(vs[i]);
        if Counts(vs[i]) && HasAdvisory(vs[i]) {
          IssueExact(vs[i].name.value, vs[i].advisory.value, vs[j].name.value, vs[j].advisory.value);
        }
      }
    }
  }

  /** The verdict, from the strings of the list and the report: the gate passes exactly when all entries are in
      order and about different issues, every vulnerability that counts has an advisory, and the first of every
      issue is answered by an entry. */
  lemma VerdictExact(parse: string -> Option<Day>, rs: seq<Record>, today: Day, vs: seq<Vuln>)
    ensures Passes(parse, rs, today, vs) <==>
      && (forall i :: 0 <= i < |rs| ==> InOrder(parse, rs[i]))
      && (forall i, j :: 0 <= i < j < |rs| ==>
           !SameIssue(rs[i]["package"], rs[i]["advisory"], rs[j]["package"], rs[j]["advisory"]))
      && (forall j :: 0 <= j < |vs| && Counts(vs[j]) ==> HasAdvisory(vs[j]))
      && (forall j :: 0 <= j < |vs| && Counts(vs[j]) && FirstSeen(vs, j) ==>
           exists i :: 0 <= i < |rs| && Answers(parse, rs[i], today, vs[j]))
  {
    PassesExact(parse, rs, today, vs);
    ListExact(parse, rs);
    var fs := Findings(vs);
    forall j | 0 <= j < |vs| ensures !fs[j].Unidentified? <==> (Counts(vs[j]) ==> HasAdvisory(vs[j])) {
      ClassifyExact(vs[j]);
    }
    if ListOk(parse, rs) && forall j :: 0 <= j < |vs| && Counts(vs[j]) ==> HasAdvisory(vs[j]) {
      forall j | 0 <= j < |vs|
        ensures First(fs, j) <==> Counts(vs[j]) && FirstSeen(vs, j)
        ensures First(fs, j) ==>
          ((exists i :: 0 <= i < |rs| && Excuses(parse, rs[i], today, fs[j])) <==>
           (exists i :: 0 <= i < |rs| && Answers(parse, rs[i], today, vs[j])))
      {
        FirstExact(vs, j);
        if First(fs, j) {
          forall i | 0 <= i < |rs| ensures Excuses(parse, rs[i], today, fs[j]) <==> Answers(parse, rs[i], today, vs[j]) {
            ExcusesExact(parse, rs[i], today, vs[j]);
          }
        }
      }
    }
  }

  // ---- Case ----

  lemma {:induction false} StripLeftCase(a: string, b: string)
    requires CaseEqual(a, b)
    ensures CaseEqual(StripLeft(a), StripLeft(b))
  {
    if a != [] && IsSpace(a[0]) {
      assert CaseEqual(a[1..], b[1..]);
      StripLeftCase(a[1..], b[1..]);
    }
  }

  lemma {:induction false} StripRightCase(a: string, b: string)
    requires CaseEqual(a, b)
    ensures CaseEqual(StripRight(a), StripRight(b))
  {
    var n := |a| - 1;
    if a != [] && IsSpace(a[n]) {
      assert CaseEqual(a[..n], b[..n]);
      StripRightCase(a[..n], b[..n]);
    }
  }

  lemma NormalCase(a: string, b: string)
    requires CaseEqual(a, b)
    ensures Lower(Strip(a)) == Lower(Strip(b)) && (a == "" <==> b == "")
  {
    StripLeftCase(a, b);
    StripRightCase(StripLeft(a), StripLeft(b));
    LowerExact(Strip(a), Strip(b));
  }

  ghost predicate CaseEqualOption(a: Option<string>, b: Option<string>) {
    a == b || (a.Some? && b.Some? && CaseEqual(a.value, b.value))
  }

  /** The same entry, but for the case of its severity and advisory. */
  ghost predicate Recased(r: Record, r': Record) {
    && r.Keys == r'.Keys
    && (forall f :: f in r ==> if f in {"severity", "advisory"} then CaseEqual(r[f], r'[f]) else r[f] == r'[f])
  }

  ghost predicate RecasedVuln(v: Vuln, w: Vuln) {
    v.name == w.name && CaseEqualOption(v.severity, w.severity) && CaseEqualOption(v.advisory, w.advisory)
  }

  lemma RecasedEntry(parse: string -> Option<Day>, r: Record, r': Record)
    requires Recased(r, r')
    ensures KeyOf(r) == KeyOf(r') && (Acceptable(parse, r) <==> Acceptable(parse, r'))
    ensures Acceptable(parse, r) ==> EntryOf(parse, r) == EntryOf(parse, r')
  {
    assert "severity" != "advisory" by { assert "severity"[0] != "advisory"[0]; }
    forall f | f in r ensures r[f] == "" <==> r'[f] == "" {
      if f in {"severity", "advisory"} {
        NormalCase(r[f], r'[f]);
      }
    }
    if "severity" in r {
      NormalCase(r["severity"], r'["severity"]);
    }
    if "advisory" in r {
      NormalCase(r["advisory"], r'["advisory"]);
    }
    assert "package" !in {"severity", "advisory"} by {
      assert |"package"| != |"severity"|;
    }
    assert "expires_on" !in {"severity", "advisory"} by {
      assert |"expires_on"| != |"severity"|;
    }
  }

  lemma RecasedFinding(v: Vuln, w: Vuln)
    requires RecasedVuln(v, w)
    ensures Classify(v) == Classify(w)
  {
    if v.severity != w.severity {
      NormalCase(v.severity.value, w.severity.value);
    }
    if v.advisory != w.advisory {
      NormalCase(v.advisory.value, w.advisory.value);
    }
  }

  /** The verdict does not change when letters of severities and advisories change case, in the list or in the
      report. */
  lemma CaseDoesNotMatter(parse: string -> Option<Day>, rs: seq<Record>, rs': seq<Record>, today: Day, vs: seq<Vuln>, ws: seq<Vuln>)
    requires |rs| == |rs'| && forall i :: 0 <= i < |rs| ==> Recased(rs[i], rs'[i])
    requires |vs| == |ws| && forall j :: 0 <= j < |vs| ==> RecasedVuln(vs[j], ws[j])
    ensures Passes(parse, rs, today, vs) <==> Passes(parse, rs', today, ws)
  {
    forall i | 0 <= i < |rs| {
      RecasedEntry(parse, rs[i], rs'[i]);
    }
    forall j | 0 <= j < |vs| {
      RecasedFinding(vs[j], ws[j]);
    }
    assert Findings(vs) == Findings(ws);
    assert Keys(rs) == Keys(rs');
    if ListOk(parse, rs) {
      assert Entries(parse, rs) == Entries(parse, rs');
    }
    assert forall index :: IndexOf(parse, rs, index) <==> IndexOf(parse, rs', index);
  }

  /** Findings of one key have one severity. */
  ghost predicate Consistent(fs: seq<Finding>) {
    forall f, g :: f in fs && g in fs && f.Found? && g.Found? && f.key == g.key ==> f.severity == g.severity
  }

  lemma {:induction false} FirstOf(fs: seq<Finding>, f: Finding, n: nat) returns (j: nat)
    requires n < |fs| && fs[n] == f && f.Found?
    ensures j <= n && First(fs, j) && fs[j].key == f.key
    decreases n
  {
    j := n;
    if i :| 0 <= i < n && fs[i].Found? && fs[i].key == f.key {
      j := FirstOf(fs, fs[i], i);
    }
  }

  /** With consistent severities the verdict on a report needs only its set of findings, can only improve when
      findings are dropped, and only improve on an earlier day. */
  lemma ReportMonotone(index: map<Key, Exception>, today: Day, earlier: Day, fs: seq<Finding>, gs: seq<Finding>)
    requires Consistent(fs) && ReportOk(index, today, fs)
    requires earlier <= today && forall g :: g in gs ==> g in fs
    ensures ReportOk(index, earlier, gs)
  {
    forall j | 0 <= j < |gs| ensures !gs[j].Unidentified? && (gs[j].Found? ==> Covered(index, earlier, gs[j])) {
      assert gs[j] in fs;
      var n :| 0 <= n < |fs| && fs[n] == gs[j];
      if gs[j].Found? {
        var m := FirstOf(fs, gs[j], n);
      }
    }
  }

  /** A pass stays a pass for every report whose vulnerabilities all occur in the old one, on every earlier
      day: in particular under permuting, duplicating and dropping. */
  lemma PassesMonotone(parse: string -> Option<Day>, rs: seq<Record>, today: Day, earlier: Day, vs: seq<Vuln>, ws: seq<Vuln>)
    requires Consistent(Findings(vs)) && Passes(parse, rs, today, vs)
    requires earlier <= today && forall w :: w in ws ==> w in vs
    ensures Passes(parse, rs, earlier, ws)
  {
    var index :| IndexOf(parse, rs, index) && ReportOk(index, today, Findings(vs));
    forall g | g in Findings(ws) ensures g in Findings(vs) {
      var j :| 0 <= j < |Findings(ws)| && Findings(ws)[j] == g;
      assert ws[j] in vs;
      var i :| 0 <= i < |vs| && vs[i] == ws[j];
      assert Findings(vs)[i] == g;
    }
    ReportMonotone(index, today, earlier, Findings(vs), Findings(ws));
  }

  // ---- Order ----

  /** The entry for the finding, if any, covers it. */
  ghost predicate Excused(parse: string -> Option<Day>, rs: seq<Record>, today: Day, f: Finding)
    requires f.Found?
  {
    exists i :: 0 <= i < |rs| && Excuses(parse, rs[i], today, f)
  }

  /** Nothing is wrong with the finding by itself. */
  ghost predicate Fine(parse: string -> Option<Day>, rs: seq<Record>, today: Day, f: Finding) {
    f.Ignored? || (f.Found? && Excused(parse, rs, today, f))
  }

  ghost predicate AllFine(parse: string -> Option<Day>, rs: seq<Record>, today: Day, vs: seq<Vuln>) {
    forall v :: v in vs ==> Fine(parse, rs, today, Classify(v))
  }

  /** Some finding that no order can repair: one without an advisory, or of a key none of whose findings is
      excused. */
  ghost predicate Hopeless(parse: string -> Option<Day>, rs: seq<Record>, today: Day, vs: seq<Vuln>) {
    exists v :: v in vs && HopelessIn(parse, rs, today, vs, Classify(v))
  }

  ghost predicate HopelessIn(parse: string -> Option<Day>, rs: seq<Record>, today: Day, vs: seq<Vuln>, f: Finding) {
    || f.Unidentified?
    || (f.Found? && forall w :: w in vs && Classify(w).Found? && Classify(w).key == f.key ==> !Excused(parse, rs, today, Classify(w)))
  }

  ghost predicate Reordered(vs: seq<Vuln>, ws: seq<Vuln>) { multiset(vs) == multiset(ws) }

  lemma SameMembers(vs: seq<Vuln>, ws: seq<Vuln>)
    requires Reordered(vs, ws)
    ensures forall v :: v in vs <==> v in ws
  {
    assert forall v :: v in vs <==> v in multiset(vs);
    assert forall v :: v in ws <==> v in multiset(ws);
  }

  lemma FineReportPasses(parse: string -> Option<Day>, rs: seq<Record>, today: Day, vs: seq<Vuln>)
    requires ListOk(parse, rs) && AllFine(parse, rs, today, vs)
    ensures Passes(parse, rs, today, vs)
  {
    PassesExact(parse, rs, today, vs);
    var fs := Findings(vs);
    forall j | 0 <= j < |fs| ensures Fine(parse, rs, today, fs[j]) {
      assert vs[j] in vs;
    }
  }

  lemma HopelessFails(parse: string -> Option<Day>, rs: seq<Record>, today: Day, vs: seq<Vuln>)
    requires Hopeless(parse, rs, today, vs)
    ensures !Passes(parse, rs, today, vs)
  {
    PassesExact(parse, rs, today, vs);
    var fs := Findings(vs);
    var v :| v in vs && HopelessIn(parse, rs, today, vs, Classify(v));
    var n :| 0 <= n < |vs| && vs[n] == v;
    if fs[n].Found? {
      var j := FirstOf(fs, fs[n], n);
      assert vs[j] in vs && !Excused(parse, rs, today, Classify(vs[j]));
      assert First(fs, j) && fs[j] == Classify(vs[j]);
    }
  }

  /** The vulnerabilities for which `fine` holds first, the others after them. */
  ghost function Parted(vs: seq<Vuln>, fine: Finding -> bool): (r: (seq<Vuln>, seq<Vuln>))
    ensures multiset(r.0 + r.1) == multiset(vs)
    ensures (forall v :: v in r.0 ==> fine(Classify(v))) && (forall v :: v in r.1 ==> !fine(Classify(v)))
  {
    if vs == [] then ([], [])
    else
      var rest := Parted(vs[1..], fine);
      assert vs == [vs[0]] + vs[1..];
      if fine(Classify(vs[0])) then ([vs[0]] + rest.0, rest.1) else (rest.0, [vs[0]] + rest.1)
  }

  /** When no finding is hopeless, putting the fine ones first makes the report pass. */
  lemma RepairedByOrder(parse: string -> Option<Day>, rs: seq<Record>, today: Day, vs: seq<Vuln>) returns (ws: seq<Vuln>)
    requires ListOk(parse, rs) && !Hopeless(parse, rs, today, vs)
    ensures Reordered(vs, ws) && Passes(parse, rs, today, ws)
  {
    var parts := Parted(vs, f => Fine(parse, rs, today, f));
    ws := parts.0 + parts.1;
    SameMembers(vs, ws);
    PassesExact(parse, rs, today, ws);
    var fs := Findings(ws);
    forall j | 0 <= j < |fs| ensures !fs[j].Unidentified? && (First(fs, j) ==> Excused(parse, rs, today, fs[j])) {
      assert ws[j] in ws && ws[j] in vs && fs[j] == Classify(ws[j]);
      assert !HopelessIn(parse, rs, today, vs, fs[j]);
      if First(fs, j) && !Excused(parse, rs, today, fs[j]) {
        FineOneBefore(parse, rs, today, vs, parts.0, parts.1, j);
      }
    }
  }

  /** A finding that is not excused, but not hopeless either, is not the first of its key then. */
  lemma FineOneBefore(parse: string -> Option<Day>, rs: seq<Record>, today: Day, vs: seq<Vuln>,
                      front: seq<Vuln>, back: seq<Vuln>, j: nat)
    requires j < |front + back| && Classify((front + back)[j]).Found?
    requires Reordered(vs, front + back) && forall v :: v in back ==> !Fine(parse, rs, today, Classify(v))
    requires forall v :: v in front ==> Fine(parse, rs, today, Classify(v))
    requires var f := Classify((front + back)[j]); !Excused(parse, rs, today, f) && !HopelessIn(parse, rs, today, vs, f)
    ensures !First(Findings(front + back), j)
  {
    var ws := front + back;
    var f := Classify(ws[j]);
    SameMembers(vs, ws);
    var w :| w in vs && Classify(w).Found? && Classify(w).key == f.key && Excused(parse, rs, today, Classify(w));
    assert w in front;
    var i :| 0 <= i < |front| && front[i] == w;
    forall k | 0 <= k < |front| ensures Fine(parse, rs, today, Classify(ws[k])) {
      assert ws[k] == front[k] && front[k] in front;
    }
    assert Findings(ws)[i] == Classify(w);
  }

  /** A finding that is not fine makes the report fail when it comes first. */
  lemma BrokenByOrder(parse: string -> Option<Day>, rs: seq<Record>, today: Day, vs: seq<Vuln>) returns (ws: seq<Vuln>)
    requires !AllFine(parse, rs, today, vs)
    ensures Reordered(vs, ws) && !Passes(parse, rs, today, ws)
  {
    var v :| v in vs && !Fine(parse, rs, today, Classify(v));
    var j :| 0 <= j < |vs| && vs[j] == v;
    ws := [vs[j]] + vs[..j] + vs[j + 1..];
    assert vs == vs[..j] + [vs[j]] + vs[j + 1..];
    PassesExact(parse, rs, today, ws);
    assert Findings(ws)[0] == Classify(v);
    assert Classify(v).Found? ==> First(Findings(ws), 0);
  }

  /** A list in order and a report pass in every order of the report exactly when every finding, not just the
      first of its key, is identified and excused. */
  lemma EveryOrderExact(parse: string -> Option<Day>, rs: seq<Record>, today: Day, vs: seq<Vuln>)
    ensures (forall ws :: Reordered(vs, ws) ==> Passes(parse, rs, today, ws)) <==>
      ListOk(parse, rs) && AllFine(parse, rs, today, vs)
  {
    if forall ws :: Reordered(vs, ws) ==> Passes(parse, rs, today, ws) {
      assert Reordered(vs, vs);
      if !AllFine(parse, rs, today, vs) {
        var ws := BrokenByOrder(parse, rs, today, vs);
        assert false;
      }
    }
    if ListOk(parse, rs) && AllFine(parse, rs, today, vs) {
      forall ws | Reordered(vs, ws) ensures Passes(parse, rs, today, ws) {
        SameMembers(vs, ws);
        FineReportPasses(parse, rs, today, ws);
      }
    }
  }

  lemma NoOrderExact(parse: string -> Option<Day>, rs: seq<Record>, today: Day, vs: seq<Vuln>)
    ensures (forall ws :: Reordered(vs, ws) ==> !Passes(parse, rs, today, ws)) <==>
      !ListOk(parse, rs) || Hopeless(parse, rs, today, vs)
  {
    if ListOk(parse, rs) && !Hopeless(parse, rs, today, vs) {
      var ws := RepairedByOrder(parse, rs, today, vs);
    }
    if Hopeless(parse, rs, today, vs) {
      forall ws | Reordered(vs, ws) ensures !Passes(parse, rs, today, ws) {
        SameMembers(vs, ws);
        StillHopeless(parse, rs, today, vs, ws);
        HopelessFails(parse, rs, today, ws);
      }
    }
  }

  lemma StillHopeless(parse: string -> Option<Day>, rs: seq<Record>, today: Day, vs: seq<Vuln>, ws: seq<Vuln>)
    requires Hopeless(parse, rs, today, vs) && forall v :: v in vs <==> v in ws
    ensures Hopeless(parse, rs, today, ws)
  {
    var v :| v in vs && HopelessIn(parse, rs, today, vs, Classify(v));
    assert HopelessIn(parse, rs, today, ws, Classify(v));
  }

  /** The exit code does not depend on the order of the report exactly when the list is not in order, or every
      finding is fine, or one is hopeless: it has no advisory, or no finding of its key is excused. */
  lemma OrderIndependentExact(parse: string -> Option<Day>, rs: seq<Record>, today: Day, vs: seq<Vuln>)
    ensures (forall ws :: Reordered(vs, ws) ==> (Passes(parse, rs, today, ws) <==> Passes(parse, rs, today, vs))) <==>
      !ListOk(parse, rs) || AllFine(parse, rs, today, vs) || Hopeless(parse, rs, today, vs)
  {
    assert Reordered(vs, vs);
    EveryOrderExact(parse, rs, today, vs);
    NoOrderExact(parse, rs, today, vs);
  }

  /** So for every entry of high or critical severity that is not expired there is a report on which the order
      decides: its own vulnerability, once with the severity of the entry and once with the other one. */
  lemma OrderMatters(parse: string -> Option<Day>, r: Record, today: Day) returns (same: Vuln, other: Vuln)
    requires Acceptable(parse, r) && EntryOf(parse, r).severity in HIGH && today <= EntryOf(parse, r).expires
    ensures Passes(parse, [r], today, [same, other]) && !Passes(parse, [r], today, [other, same])
  {
    var s := EntryOf(parse, r).severity;
    var t := if s == "high" then "critical" else "high";
    same := Vuln(Some(r["package"]), Some(s), Some(r["advisory"]));
    other := Vuln(Some(r["package"]), Some(t), Some(r["advisory"]));
    HighIsNormal(s);
    HighIsNormal(t);
    PairOfKey(parse, r, today, same, other, s, t);
  }

  lemma PairOfKey(parse: string -> Option<Day>, r: Record, today: Day, same: Vuln, other: Vuln, s: string, t: string)
    requires Acceptable(parse, r) && EntryOf(parse, r).severity == s && today <= EntryOf(parse, r).expires
    requires s != "" && s != t && Classify(same) == Found(KeyOf(r), s) && Classify(other) == Found(KeyOf(r), t)
    ensures Passes(parse, [r], today, [same, other]) && !Passes(parse, [r], today, [other, same])
  {
    PassesExact(parse, [r], today, [same, other]);
    PassesExact(parse, [r], today, [other, same]);
    var fs, gs := Findings([same, other]), Findings([other, same]);
    assert fs[0].key == fs[1].key && !First(fs, 1);
    assert Excuses(parse, [r][0], today, fs[0]);
    assert First(gs, 0) && !Excuses(parse, r, today, gs[0]);
  }

  lemma HighIsNormal(s: string)
    requires s in HIGH
    ensures NormalizeSeverity(Some(s)) == s && "high" != "critical"
  {
    assert |"high"| != |"critical"|;
    if s == "high" {
      assert Strip("high") == "high";
    } else {
      assert Strip("critical") == "critical";
    }
    assert Lower(s) == s;
  }
}
