/** The reader of the exception list: a small line-by-line subset of YAML. */
module AuditParser {
  import opened Options

  /** The characters that Python's `str.strip` removes. */
  predicate IsSpace(c: char) {
    || c == ' ' || c == '\U{0085}' || c == '\U{00A0}' || c == '\U{1680}'
    || '\t' <= c <= '\r' || '\U{001C}' <= c <= '\U{001F}' || '\U{2000}' <= c <= '\U{200A}'
    || c == '\U{2028}' || c == '\U{2029}' || c == '\U{202F}' || c == '\U{205F}' || c == '\U{3000}'
  }

  function StripLeft(s: string): string {
    if s != [] && IsSpace(s[0]) then StripLeft(s[1..]) else s
  }

  function StripRight(s: string): string {
    if s != [] && IsSpace(s[|s| - 1]) then StripRight(s[..|s| - 1]) else s
  }

  function Strip(s: string): string { StripRight(StripLeft(s)) }

  ghost predicate Blank(s: string) { forall i :: 0 <= i < |s| ==> IsSpace(s[i]) }

  /** A string that strip leaves alone. */
  predicate Trim(s: string) { s == [] || (!IsSpace(s[0]) && !IsSpace(s[|s| - 1])) }

  lemma {:induction false} StripLeftExact(pre: string, s: string)
    requires Blank(pre) && (s == [] || !IsSpace(s[0]))
    ensures StripLeft(pre + s) == s
  {
    if pre == [] {
      assert pre + s == s;
    } else {
      assert (pre + s)[1..] == pre[1..] + s;
      StripLeftExact(pre[1..], s);
    }
  }

  lemma {:induction false} StripRightExact(s: string, post: string)
    requires Blank(post) && (s == [] || !IsSpace(s[|s| - 1]))
    ensures StripRight(s + post) == s
  {
    if post == [] {
      assert s + post == s;
    } else {
      assert (s + post)[..|s + post| - 1] == s + post[..|post| - 1];
      StripRightExact(s, post[..|post| - 1]);
    }
  }

  lemma StripExact(pre: string, s: string, post: string)
    requires Blank(pre) && Blank(post) && Trim(s) && s != []
    ensures Strip(pre + s + post) == s
  {
    assert pre + s + post == pre + (s + post);
    StripLeftExact(pre, s + post);
    StripRightExact(s, post);
  }

  lemma StripTrim(s: string)
    requires Trim(s)
    ensures Strip(s) == s
  {
    if s != [] {
      StripExact([], s, []);
      assert [] + s + [] == s;
    }
  }

  lemma {:induction false} StripRightKeeps(w: string, rest: string)
    requires w != [] && !IsSpace(w[|w| - 1])
    ensures w <= StripRight(w + rest)
    decreases |rest|
  {
    var s := w + rest;
    if rest != [] && IsSpace(s[|s| - 1]) {
      assert s[..|s| - 1] == w + rest[..|rest| - 1];
      StripRightKeeps(w, rest[..|rest| - 1]);
    } else if rest == [] {
      assert s == w;
    }
  }

  lemma StripKeeps(pre: string, w: string, rest: string)
    requires Blank(pre) && w != [] && !IsSpace(w[0]) && !IsSpace(w[|w| - 1])
    ensures w <= Strip(pre + w + rest)
  {
    assert pre + w + rest == pre + (w + rest);
    StripLeftExact(pre, w + rest);
    StripRightKeeps(w, rest);
  }

  /** The position of the first colon, or the length when there is none. */
  function Colon(s: string): (i: nat)
    ensures i <= |s| && (i < |s| ==> s[i] == ':') && forall j :: 0 <= j < i ==> s[j] != ':'
  {
    if s == [] || s[0] == ':' then 0 else 1 + Colon(s[1..])
  }

  function Unquote(v: string): string {
    if v != [] && (v[0] == v[|v| - 1] == '"' || v[0] == v[|v| - 1] == '\'')
    then if |v| == 1 then [] else v[1..|v| - 1]
    else v
  }

  /** Splits "key: value" at the first colon; without a colon the original raises. */
  function SplitKv(line: string): Option<(string, string)> {
    var i := Colon(line);
    if i == |line| then None else Some((Strip(line[..i]), Unquote(Strip(line[i + 1..]))))
  }

  type Record = map<string, string>

  datatype ReaderState = ReaderState(done: seq<Record>, current: Option<Record>)

  /** The list after closing the current record; an empty record is not kept. */
  function Closed(s: ReaderState): seq<Record> {
    if s.current.Some? && s.current.value != map[] then s.done + [s.current.value] else s.done
  }

  /** Lines that the reader skips: blank lines, comments and the two top-level keys. */
  predicate Skipped(raw: string) {
    var line := Strip(raw);
    line == [] || "#" <= line || IsKey("version", line) || IsKey("exceptions", line)
  }

  /** The line starts with the word and a colon. */
  predicate IsKey(word: string, line: string) { word + ":" <= line }

  function WithPair(r: Record, kv: (string, string)): Record { r[kv.0 := kv.1] }

  /** What one line does; `None` when the original raises. */
  function Step(s: ReaderState, raw: string): Option<ReaderState> {
    var line := Strip(raw);
    if Skipped(raw) then Some(s)
    else if "- " <= line then
      var rest := Strip(line[2..]);
      if rest == [] then Some(ReaderState(Closed(s), Some(map[])))
      else
        var kv := SplitKv(rest);
        if kv.None? then None else Some(ReaderState(Closed(s), Some(WithPair(map[], kv.value))))
    else if s.current.Some? && Colon(line) < |line| then
      Some(s.(current := Some(WithPair(s.current.value, SplitKv(line).value))))
    else Some(s)
  }

  function Steps(s: ReaderState, lines: seq<string>): Option<ReaderState>
    decreases |lines|
  {
    if lines == [] then Some(s)
    else
      var next := Step(s, lines[0]);
      if next.None? then None else Steps(next.value, lines[1..])
  }

  const EMPTY := ReaderState([], None)

  /** The records of a file, given as its lines. */
  function Parsed(lines: seq<string>): Option<seq<Record>> {
    var end := Steps(EMPTY, lines);
    if end.None? then None else Some(Closed(end.value))
  }

  method ParseExceptions(lines: seq<string>) returns (r: Option<seq<Record>>)
    ensures r == Parsed(lines)
  {
    var exceptions: seq<Record> := [];
    var current: Option<Record> := None;
    for i := 0 to |lines|
      invariant Steps(EMPTY, lines) == Steps(ReaderState(exceptions, current), lines[i..])
    {
      assert lines[i..][1..] == lines[i + 1..];
      var line := Strip(lines[i]);
      if Skipped(lines[i]) {
        continue;
      }
      if "- " <= line {
        if current.Some? && current.value != map[] {
          exceptions := exceptions + [current.value];
        }
        current := Some(map[]);
        line := Strip(line[2..]);
        if line != [] {
          var kv := SplitKv(line);
          if kv.None? {
            return None;
          }
          current := Some(current.value[kv.value.0 := kv.value.1]);
        }
        continue;
      }
      if current.Some? && Colon(line) < |line| {
        var kv := SplitKv(line);
        current := Some(current.value[kv.value.0 := kv.value.1]);
      }
    }
    if current.Some? && current.value != map[] {
      exceptions := exceptions + [current.value];
    }
    r := Some(exceptions);
  }

  // ---- Lines that may stand anywhere ----

  /** Blank lines, comments and the two top-level keys are skipped, whatever their indentation and their rest. */
  lemma SkipsForms(indent: string, rest: string)
    requires Blank(indent)
    ensures Skipped(indent)
    ensures Skipped(indent + "#" + rest) && Skipped(indent + "version:" + rest) && Skipped(indent + "exceptions:" + rest)
  {
    StripLeftExact(indent, []);
    assert indent + [] == indent;
    StripKeeps(indent, "#", rest);
    StripKeeps(indent, "version:", rest);
    StripKeeps(indent, "exceptions:", rest);
  }

  /** A line without effect: one that is skipped, or one with neither a dash nor a colon. */
  predicate Inert(raw: string) {
    Skipped(raw) || (!("- " <= Strip(raw)) && Colon(Strip(raw)) == |Strip(raw)|)
  }

  function WithoutInert(lines: seq<string>): seq<string> {
    if lines == [] then []
    else if Inert(lines[0]) then WithoutInert(lines[1..])
    else [lines[0]] + WithoutInert(lines[1..])
  }

  lemma {:induction false} InertLinesDoNotMatter(s: ReaderState, lines: seq<string>)
    ensures Steps(s, lines) == Steps(s, WithoutInert(lines))
    decreases |lines|
  {
    if lines != [] {
      var next := Step(s, lines[0]);
      if next.Some? {
        InertLinesDoNotMatter(next.value, lines[1..]);
      }
    }
  }

  /** Before the first record starts, every line is without effect. */
  lemma {:induction false} HeaderIsIgnored(done: seq<Record>, lines: seq<string>)
    requires forall i :: 0 <= i < |lines| ==> !("- " <= Strip(lines[i]))
    ensures Steps(ReaderState(done, None), lines) == Some(ReaderState(done, None))
    decreases |lines|
  {
    if lines != [] {
      HeaderIsIgnored(done, lines[1..]);
    }
  }

  /** A line that starts a record with something that is not a pair. */
  predicate Raises(raw: string) {
    !Skipped(raw) && "- " <= Strip(raw) && Strip(Strip(raw)[2..]) != [] && ':' !in Strip(Strip(raw)[2..])
  }

  /** Reading raises exactly when there is such a line. */
  lemma {:induction false} RaisesExact(s: ReaderState, lines: seq<string>)
    ensures Steps(s, lines) == None <==> exists i :: 0 <= i < |lines| && Raises(lines[i])
    decreases |lines|
  {
    if lines != [] {
      var next := Step(s, lines[0]);
      assert next == None <==> Raises(lines[0]);
      if next.Some? {
        RaisesExact(next.value, lines[1..]);
        assert forall i :: 0 < i < |lines| ==> lines[i] == lines[1..][i - 1];
        assert forall i :: 0 <= i < |lines| - 1 ==> lines[1..][i] == lines[i + 1];
      }
    }
  }

  // ---- Printing, and reading back what was printed ----

  /** How a value is written: as it stands, or in quotes of either kind. */
  datatype Style = Bare | InSingle | InDouble

  datatype Pair = Pair(key: string, value: string, style: Style)

  function Written(p: Pair): string {
    match p.style
    case Bare => if p.value == [] then [] else " " + p.value
    case InSingle => " '" + p.value + "'"
    case InDouble => " \"" + p.value + "\""
  }

  function PrintPair(p: Pair): string { p.key + ":" + Written(p) }

  /** The value starts and ends with the same quote. A lone quote does. */
  predicate Enclosed(v: string) { v != [] && v[0] == v[|v| - 1] && (v[0] == '"' || v[0] == '\'') }

  /** A value that can be written like this: bare only when it is trimmed and not itself enclosed in quotes. */
  predicate Writable(p: Pair) { p.style.Bare? ==> Trim(p.value) && !Enclosed(p.value) }

  /** A record as lines: a dash before the first pair, the others indented. */
  function PrintRecord(dash: string, indent: string, r: seq<Pair>): seq<string> {
    if r == [] then [] else [dash + "- " + PrintPair(r[0])] + PrintPairs(indent, r[1..])
  }

  function PrintPairs(indent: string, ps: seq<Pair>): seq<string> {
    if ps == [] then [] else [indent + PrintPair(ps[0])] + PrintPairs(indent, ps[1..])
  }

  function Print(dash: string, indent: string, rs: seq<seq<Pair>>): seq<string> {
    if rs == [] then [] else PrintRecord(dash, indent, rs[0]) + Print(dash, indent, rs[1..])
  }

  function Put(r: Record, p: Pair): Record { r[p.key := p.value] }

  /** The dictionary of a list of pairs; a later pair replaces an earlier one. */
  function Dict(r: Record, ps: seq<Pair>): Record
    decreases |ps|
  {
    if ps == [] then r else Dict(Put(r, ps[0]), ps[1..])
  }

  function Dicts(rs: seq<seq<Pair>>): seq<Record> {
    if rs == [] then [] else [Dict(map[], rs[0])] + Dicts(rs[1..])
  }

  /** A key that survives after a dash: trimmed, and without a colon. */
  predicate FirstKey(k: string) { Trim(k) && Colon(k) == |k| }

  /** A key that survives at the start of a line: nor may the line look like a comment, a top-level key or
      the start of a record. */
  predicate LineKey(k: string) {
    FirstKey(k) && !("#" <= k) && !("- " <= k) && k != "version" && k != "exceptions"
  }

  predicate Printable(r: seq<Pair>) {
    && r != [] && FirstKey(r[0].key) && Writable(r[0])
    && forall i :: 0 < i < |r| ==> LineKey(r[i].key) && Writable(r[i])
  }

  lemma {:induction false} ColonAfter(k: string, rest: string)
    requires Colon(k) == |k|
    ensures Colon(k + ":" + rest) == |k|
  {
    if k == [] {
      assert (k + ":" + rest)[0] == ':';
    } else {
      assert (k + ":" + rest)[1..] == k[1..] + ":" + rest;
      assert (k + ":" + rest)[0] == k[0];
      ColonAfter(k[1..], rest);
    }
  }

  lemma PairTrim(p: Pair)
    requires FirstKey(p.key) && Writable(p)
    ensures Trim(PrintPair(p)) && PrintPair(p) != []
  {
    var line := PrintPair(p);
    var last := line[|line| - 1];
    match p.style
    case Bare => assert last == if p.value == [] then ':' else p.value[|p.value| - 1];
    case InSingle => assert last == '\'';
    case InDouble => assert last == '"';
    assert line[0] == if p.key == [] then ':' else p.key[0];
  }

  /** What is written after the colon reads as the value, whatever quotes and colons the value has. */
  lemma WrittenReads(p: Pair)
    requires Writable(p)
    ensures Unquote(Strip(Written(p))) == p.value
  {
    if p.style.Bare? {
      if p.value == [] {
        StripTrim([]);
      } else {
        StripExact(" ", p.value, "");
        assert " " + p.value + "" == Written(p);
      }
    } else {
      var quote := if p.style.InSingle? then "'" else "\"";
      var quoted := quote + p.value + quote;
      assert Written(p) == " " + quoted + "";
      StripExact(" ", quoted, "");
      assert quoted[1..|quoted| - 1] == p.value;
    }
  }

  /** A printed pair splits into its key and its value. */
  lemma SplitPrinted(p: Pair)
    requires FirstKey(p.key) && Writable(p)
    ensures SplitKv(PrintPair(p)) == Some((p.key, p.value))
  {
    var line := PrintPair(p);
    ColonAfter(p.key, Written(p));
    assert line[..|p.key|] == p.key;
    StripTrim(p.key);
    assert line[|p.key| + 1..] == Written(p);
    WrittenReads(p);
  }

  lemma NotSkippedAtDash(dash: string, p: Pair)
    requires Blank(dash) && FirstKey(p.key) && Writable(p)
    ensures var raw := dash + "- " + PrintPair(p);
      Strip(raw) == "- " + PrintPair(p) && !Skipped(raw)
  {
    var line := "- " + PrintPair(p);
    PairTrim(p);
    StripExact(dash, line, "");
    assert dash + "- " + PrintPair(p) == dash + line + "";
    assert line[0] == '-';
  }

  lemma StepDash(s: ReaderState, dash: string, p: Pair)
    requires Blank(dash) && FirstKey(p.key) && Writable(p)
    ensures Step(s, dash + "- " + PrintPair(p)) == Some(ReaderState(Closed(s), Some(Put(map[], p))))
  {
    NotSkippedAtDash(dash, p);
    var line := "- " + PrintPair(p);
    assert line[2..] == PrintPair(p);
    PairTrim(p);
    StripTrim(PrintPair(p));
    SplitPrinted(p);
  }

  /** A word followed by a colon begins the line only when it is the key. */
  lemma WordPrefix(word: string, k: string, rest: string)
    requires Colon(k) == |k| && ':' !in word
    ensures IsKey(word, k + ":" + rest) ==> word == k
  {
    if IsKey(word, k + ":" + rest) {
      var line := k + ":" + rest;
      assert line[|k|] == ':' && line[|word|] == ':';
      assert forall j :: 0 <= j < |k| ==> line[j] == k[j];
      assert forall j :: 0 <= j < |word| ==> line[j] == word[j];
      assert |k| == |word|;
    }
  }

  lemma NotSkippedIndented(indent: string, p: Pair)
    requires Blank(indent) && LineKey(p.key) && Writable(p)
    ensures var raw := indent + PrintPair(p); Strip(raw) == PrintPair(p) && !Skipped(raw)
  {
    var line := PrintPair(p);
    PairTrim(p);
    StripExact(indent, line, "");
    assert indent + line == indent + line + "";
    NotTopLevel(p);
    assert line[0] == if p.key == [] then ':' else p.key[0];
  }

  lemma NotTopLevel(p: Pair)
    requires LineKey(p.key)
    ensures !IsKey("version", PrintPair(p)) && !IsKey("exceptions", PrintPair(p))
  {
    WordPrefix("version", p.key, Written(p));
    WordPrefix("exceptions", p.key, Written(p));
  }

  lemma NoDash(p: Pair)
    requires LineKey(p.key)
    ensures !("- " <= PrintPair(p)) && Colon(PrintPair(p)) < |PrintPair(p)|
  {
    var line := PrintPair(p);
    ColonAfter(p.key, Written(p));
    assert line[0] == if p.key == [] then ':' else p.key[0];
    assert |p.key| == 1 ==> line[1] == ':';
    assert |p.key| > 1 ==> line[1] == p.key[1];
  }

  lemma StepIndented(s: ReaderState, indent: string, p: Pair)
    requires Blank(indent) && LineKey(p.key) && Writable(p) && s.current.Some?
    ensures Step(s, indent + PrintPair(p)) == Some(s.(current := Some(Put(s.current.value, p))))
  {
    NotSkippedIndented(indent, p);
    NoDash(p);
    SplitPrinted(p);
  }

  lemma StepsIndented(s: ReaderState, indent: string, p: Pair, more: seq<string>)
    requires Blank(indent) && LineKey(p.key) && Writable(p) && s.current.Some?
    ensures Steps(s, [indent + PrintPair(p)] + more) == Steps(s.(current := Some(Put(s.current.value, p))), more)
  {
    StepIndented(s, indent, p);
    assert ([indent + PrintPair(p)] + more)[1..] == more;
  }

  lemma {:induction false} StepsPairs(s: ReaderState, indent: string, ps: seq<Pair>, more: seq<string>)
    requires Blank(indent) && s.current.Some? && forall i :: 0 <= i < |ps| ==> LineKey(ps[i].key) && Writable(ps[i])
    ensures Steps(s, PrintPairs(indent, ps) + more) == Steps(s.(current := Some(Dict(s.current.value, ps))), more)
    decreases |ps|
  {
    if ps == [] {
      assert PrintPairs(indent, ps) + more == more;
    } else {
      assert PrintPairs(indent, ps) + more == [indent + PrintPair(ps[0])] + (PrintPairs(indent, ps[1..]) + more);
      StepsIndented(s, indent, ps[0], PrintPairs(indent, ps[1..]) + more);
      StepsPairs(s.(current := Some(Put(s.current.value, ps[0]))), indent, ps[1..], more);
    }
  }

  lemma {:induction false} DictGrows(r: Record, ps: seq<Pair>)
    ensures r.Keys <= Dict(r, ps).Keys
    decreases |ps|
  {
    if ps != [] {
      DictGrows(Put(r, ps[0]), ps[1..]);
    }
  }

  lemma {:induction false} StepsRecords(s: ReaderState, dash: string, indent: string, rs: seq<seq<Pair>>)
    requires Blank(dash) && Blank(indent) && forall i :: 0 <= i < |rs| ==> Printable(rs[i])
    ensures Steps(s, Print(dash, indent, rs)).Some?
    ensures Closed(Steps(s, Print(dash, indent, rs)).value) == Closed(s) + Dicts(rs)
    decreases |rs|
  {
    if rs == [] {
      assert Closed(s) + Dicts(rs) == Closed(s);
    } else {
      var after := StepsRecord(s, dash, indent, rs[0], Print(dash, indent, rs[1..]));
      StepsRecords(after, dash, indent, rs[1..]);
      Regroup(Closed(s), Dict(map[], rs[0]), Dicts(rs[1..]));
    }
  }

  lemma Regroup(a: seq<Record>, d: Record, ds: seq<Record>)
    ensures a + [d] + ds == a + ([d] + ds)
  {
  }

  lemma StepsRecord(s: ReaderState, dash: string, indent: string, r: seq<Pair>, rest: seq<string>) returns (after: ReaderState)
    requires Blank(dash) && Blank(indent) && Printable(r)
    ensures Steps(s, PrintRecord(dash, indent, r) + rest) == Steps(after, rest)
    ensures Closed(after) == Closed(s) + [Dict(map[], r)]
  {
    var first := ReaderState(Closed(s), Some(Put(map[], r[0])));
    StepsDash(s, dash, r[0], PrintPairs(indent, r[1..]) + rest);
    assert PrintRecord(dash, indent, r) + rest == [dash + "- " + PrintPair(r[0])] + (PrintPairs(indent, r[1..]) + rest);
    StepsPairs(first, indent, r[1..], rest);
    after := first.(current := Some(Dict(Put(map[], r[0]), r[1..])));
    DictGrows(Put(map[], r[0]), r[1..]);
    assert r[0].key in Dict(Put(map[], r[0]), r[1..]);
  }

  lemma StepsDash(s: ReaderState, dash: string, p: Pair, more: seq<string>)
    requires Blank(dash) && FirstKey(p.key) && Writable(p)
    ensures Steps(s, [dash + "- " + PrintPair(p)] + more) == Steps(ReaderState(Closed(s), Some(Put(map[], p))), more)
  {
    StepDash(s, dash, p);
    assert ([dash + "- " + PrintPair(p)] + more)[1..] == more;
  }

  /** Round trip: reading a printed list of records gives their dictionaries back, for values written bare or in
      quotes of either kind, with any quotes and colons in them and any indentation, and with lines without effect
      anywhere between. */
  lemma RoundTrip(dash: string, indent: string, rs: seq<seq<Pair>>, lines: seq<string>)
    requires Blank(dash) && Blank(indent) && forall i :: 0 <= i < |rs| ==> Printable(rs[i])
    requires WithoutInert(lines) == WithoutInert(Print(dash, indent, rs))
    ensures Parsed(lines) == Some(Dicts(rs))
  {
    StepsRecords(EMPTY, dash, indent, rs);
    InertLinesDoNotMatter(EMPTY, lines);
    InertLinesDoNotMatter(EMPTY, Print(dash, indent, rs));
    assert [] + Dicts(rs) == Dicts(rs);
  }
}
