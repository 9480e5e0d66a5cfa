/** The reader of MIKE SHE .etv vegetation files: a line-driven state
    machine that remembers the current vegetation block, the vegetation
    name and the current stage, and collects one record (stage, value) per
    value line of the requested variable under the vegetation's name; the
    records of each vegetation are then ordered by stage. Lines are given
    already read; the conversion of a value's text to a number is the
    parameter parse (None where float() raises ValueError). */
module EtvReader {
  import opened Wrappers

  // ---- Characters and spans -------------------------------------------------

  /** The whitespace str.strip() and \s remove (ASCII). */
  predicate IsSpace(c: char) {
    c == ' ' || c == '\t' || c == '\n' || c == '\r' || c == '\U{0B}' || c == '\U{0C}'
  }

  predicate IsDigit(c: char) {
    '0' <= c <= '9'
  }

  predicate NotQuote(c: char) {
    c != '\''
  }

  predicate NotEquals(c: char) {
    c != '='
  }

  predicate AllSpace(s: string) {
    forall i :: 0 <= i < |s| ==> IsSpace(s[i])
  }

  predicate StartsWith(s: string, prefix: string) {
    |prefix| <= |s| && s[..|prefix|] == prefix
  }

  /** The length of the longest prefix of s whose characters satisfy p. */
  function Span(s: string, p: char -> bool): (n: nat)
    ensures n <= |s|
  {
    if |s| > 0 && p(s[0]) then 1 + Span(s[1..], p) else 0
  }

  /** The span is a run of matching characters ended by the end of s or by
      a character that does not match. */
  lemma {:induction false} SpanStops(s: string, p: char -> bool)
    ensures forall i :: 0 <= i < Span(s, p) ==> p(s[i])
    ensures Span(s, p) < |s| ==> !p(s[Span(s, p)])
  {
    if |s| > 0 && p(s[0]) {
      SpanStops(s[1..], p);
    }
  }

  /** A span stops exactly where its run of matching characters ends. */
  lemma {:induction false} SpanOfRun(a: string, b: string, p: char -> bool)
    requires forall i :: 0 <= i < |a| ==> p(a[i])
    requires |b| == 0 || !p(b[0])
    ensures Span(a + b, p) == |a|
  {
    if |a| > 0 {
      assert (a + b)[1..] == a[1..] + b;
      SpanOfRun(a[1..], b, p);
    }
  }

  // ---- str.strip() ----------------------------------------------------------

  function TrimLeft(s: string): (r: string)
    ensures |r| <= |s|
  {
    if |s| > 0 && IsSpace(s[0]) then TrimLeft(s[1..]) else s
  }

  function TrimRight(s: string): (r: string)
    ensures |r| <= |s|
  {
    if |s| > 0 && IsSpace(s[|s| - 1]) then TrimRight(s[..|s| - 1]) else s
  }

  /** line.strip(): the text between the leading and the trailing
      whitespace. */
  function Strip(s: string): string {
    TrimRight(TrimLeft(s))
  }

  /** TrimLeft drops a run of leading whitespace and stops at the first
      other character. */
  lemma {:induction false} TrimLeftParts(s: string)
    ensures var r := TrimLeft(s);
            && r == s[|s| - |r|..]
            && AllSpace(s[..|s| - |r|])
            && (|r| > 0 ==> !IsSpace(r[0]))
  {
    if |s| > 0 && IsSpace(s[0]) {
      TrimLeftParts(s[1..]);
      var r := TrimLeft(s);
      assert s[1..][|s| - 1 - |r|..] == s[|s| - |r|..];
      assert s[..|s| - |r|] == [s[0]] + s[1..][..|s| - 1 - |r|];
    }
  }

  lemma {:induction false} TrimRightParts(s: string)
    ensures var r := TrimRight(s);
            && r == s[..|r|]
            && AllSpace(s[|r|..])
            && (|r| > 0 ==> !IsSpace(r[|r| - 1]))
  {
    if |s| > 0 && IsSpace(s[|s| - 1]) {
      TrimRightParts(s[..|s| - 1]);
      var r := TrimRight(s);
      assert s[..|s| - 1][..|r|] == s[..|r|];
      assert s[|r|..] == s[..|s| - 1][|r|..] + [s[|s| - 1]];
    }
  }

  /** Stripping removes only whitespace, at the two ends, and leaves a text
      that neither starts nor ends with whitespace. */
  lemma StripParts(s: string)
    ensures var r := Strip(s);
            && (exists i :: 0 <= i <= |s| - |r| && s[i..i + |r|] == r && AllSpace(s[..i]) && AllSpace(s[i + |r|..]))
            && (|r| > 0 ==> !IsSpace(r[0]) && !IsSpace(r[|r| - 1]))
  {
    var l := TrimLeft(s);
    var r := TrimRight(l);
    TrimLeftParts(s);
    TrimRightParts(l);
    var i := |s| - |l|;
    assert s[i..i + |r|] == r;
    assert s[i + |r|..] == l[|r|..];
    if |r| > 0 {
      assert r[0] == l[0];
    }
  }

  // ---- The patterns ---------------------------------------------------------

  const VegNoTag: string := "[VegNo_"
  const StageTag: string := "[Stage_"
  const VegNameKey: string := "VEGNAME"

  /** re.match(r'\[Tag_(\d+)\]', line): the digits of a header at the start
      of the line, whatever follows it. */
  function HeaderDigits(line: string, tag: string): Option<string> {
    if !StartsWith(line, tag) then None
    else
      var rest := line[|tag|..];
      var n := Span(rest, IsDigit);
      if 1 <= n < |rest| && rest[n] == ']' then Some(rest[..n]) else None
  }

  /** A recognised header is the tag, a non-empty run of digits and ']'. */
  lemma HeaderShape(line: string, tag: string)
    ensures var r := HeaderDigits(line, tag);
            r.Some? ==> && |r.value| >= 1
                        && (forall i :: 0 <= i < |r.value| ==> IsDigit(r.value[i]))
                        && StartsWith(line, tag + r.value + "]")
  {
    if HeaderDigits(line, tag).Some? {
      var rest := line[|tag|..];
      var n := Span(rest, IsDigit);
      SpanStops(rest, IsDigit);
      assert line[..|tag| + n + 1] == tag + rest[..n] + "]";
    }
  }

  /** Every header of digits is recognised, with its digits. */
  lemma HeaderRoundTrip(tag: string, ds: string, tail: string)
    requires |ds| >= 1 && forall i :: 0 <= i < |ds| ==> IsDigit(ds[i])
    ensures HeaderDigits(tag + ds + "]" + tail, tag) == Some(ds)
  {
    var line := tag + ds + "]" + tail;
    assert line[..|tag|] == tag;
    var rest := line[|tag|..];
    assert rest == ds + ("]" + tail);
    SpanOfRun(ds, "]" + tail, IsDigit);
    assert rest[..|ds|] == ds;
  }

  /** int() of a run of decimal digits. */
  function DigitsValue(ds: string): nat {
    if |ds| == 0 then 0
    else DigitsValue(ds[..|ds| - 1]) * 10 + DigitValue(ds[|ds| - 1])
  }

  /** The value of one decimal digit (0 for any other character, which a
      header never holds). */
  function DigitValue(c: char): (d: nat)
    ensures IsDigit(c) ==> d <= 9
  {
    if IsDigit(c) then c as int - '0' as int else 0
  }

  /** VEGNAME\s*=\s*'([^']+)' matched at the very start of s: the quoted
      name, which is not empty and holds no quote. */
  function NameAt(s: string): Option<string> {
    if StartsWith(s, VegNameKey) then Assignment(s[|VegNameKey|..]) else None
  }

  /** s with its leading whitespace (\s*) skipped. */
  function SkipSpace(s: string): string {
    s[Span(s, IsSpace)..]
  }

  /** \s*=\s*'([^']+)' at the start of s. */
  function Assignment(s: string): Option<string> {
    var r := SkipSpace(s);
    if |r| > 0 && r[0] == '=' then Quoted(SkipSpace(r[1..])) else None
  }

  /** '([^']+)' at the start of s. */
  function Quoted(s: string): Option<string> {
    if |s| > 0 && s[0] == '\'' then ClosedRun(s[1..]) else None
  }

  /** ([^']+)' at the start of s: a non-empty run without quotes that a
      quote closes. */
  function ClosedRun(s: string): Option<string> {
    var n := Span(s, NotQuote);
    if 1 <= n < |s| then Some(s[..n]) else None
  }

  /** A matched name starts with the key and is a non-empty run without
      quotes. */
  lemma NameShape(s: string)
    ensures var r := NameAt(s);
            r.Some? ==> && StartsWith(s, VegNameKey)
                        && |r.value| >= 1
                        && forall i :: 0 <= i < |r.value| ==> NotQuote(r.value[i])
  {
    if NameAt(s).Some? {
      var r := SkipSpace(s[|VegNameKey|..]);
      var q := SkipSpace(r[1..]);
      SpanStops(q[1..], NotQuote);
    }
  }

  /** Skipping whitespace removes exactly a leading run of it. */
  lemma SkipSpaceRun(sp: string, rest: string)
    requires AllSpace(sp)
    requires |rest| == 0 || !IsSpace(rest[0])
    ensures SkipSpace(sp + rest) == rest
  {
    SpanOfRun(sp, rest, IsSpace);
  }

  /** A well-formed assignment yields its name, whatever the spacing around
      '=' and whatever follows the closing quote. */
  lemma NameRoundTrip(sp1: string, sp2: string, name: string, tail: string)
    requires AllSpace(sp1) && AllSpace(sp2)
    requires |name| >= 1 && forall i :: 0 <= i < |name| ==> NotQuote(name[i])
    ensures NameAt(VegNameKey + (sp1 + ("=" + (sp2 + ("'" + (name + ("'" + tail))))))) == Some(name)
  {
    var quoted := "'" + (name + ("'" + tail));
    QuotedRoundTrip(name, tail);
    AssignmentRoundTrip(sp1, sp2, quoted);
    NameAtKey(sp1 + ("=" + (sp2 + quoted)));
  }

  lemma NameAtKey(rest: string)
    ensures NameAt(VegNameKey + rest) == Assignment(rest)
  {
    assert (VegNameKey + rest)[..|VegNameKey|] == VegNameKey;
    assert (VegNameKey + rest)[|VegNameKey|..] == rest;
  }

  lemma QuotedRoundTrip(name: string, tail: string)
    requires |name| >= 1 && forall i :: 0 <= i < |name| ==> NotQuote(name[i])
    ensures Quoted("'" + (name + ("'" + tail))) == Some(name)
  {
    var closed := name + ("'" + tail);
    SpanOfRun(name, "'" + tail, NotQuote);
    assert closed[..|name|] == name;
    assert ("'" + closed)[1..] == closed;
  }

  lemma AssignmentRoundTrip(sp1: string, sp2: string, quoted: string)
    requires AllSpace(sp1) && AllSpace(sp2)
    requires |quoted| > 0 && quoted[0] == '\''
    ensures Assignment(sp1 + ("=" + (sp2 + quoted))) == Quoted(quoted)
  {
    SkipSpaceRun(sp2, quoted);
    var afterEq := sp2 + quoted;
    SkipSpaceRun(sp1, "=" + afterEq);
    assert ("=" + afterEq)[1..] == afterEq;
  }

  /** The pattern matches at the start of s. */
  predicate HasName(s: string) {
    NameAt(s).Some?
  }

  /** re.search: the leftmost position from p on where m holds of the rest
      of the line. */
  function SearchFrom(line: string, p: nat, m: string -> bool): (r: Option<nat>)
    requires p <= |line|
    ensures r.Some? ==> p <= r.value <= |line|
    decreases |line| - p
  {
    if m(line[p..]) then Some(p)
    else if p == |line| then None
    else SearchFrom(line, p + 1, m)
  }

  /** The search finds the leftmost position where m holds, and finds
      nothing only when m holds nowhere. */
  lemma {:induction false} SearchLeftmost(line: string, p: nat, m: string -> bool)
    requires p <= |line|
    ensures var r := SearchFrom(line, p, m);
            && (r.Some? ==> m(line[r.value..]))
            && (r.Some? ==> forall q :: p <= q < r.value ==> !m(line[q..]))
            && (r.None? ==> forall q :: p <= q <= |line| ==> !m(line[q..]))
    decreases |line| - p
  {
    if !m(line[p..]) && p < |line| {
      SearchLeftmost(line, p + 1, m);
    }
  }

  /** The vegetation name a line assigns, if any. */
  function FindVegName(line: string): Option<string> {
    match SearchFrom(line, 0, HasName)
    case None => None
    case Some(q) => NameAt(line[q..])
  }

  /** A line assigns a name exactly when the pattern matches somewhere in
      it, and the name is the one at the leftmost match. */
  lemma FindVegNameLeftmost(line: string)
    ensures FindVegName(line).Some? <==> exists q :: 0 <= q <= |line| && HasName(line[q..])
    ensures FindVegName(line).Some? ==>
              exists q :: 0 <= q <= |line| && NameAt(line[q..]) == FindVegName(line)
                          && forall q' :: 0 <= q' < q ==> !HasName(line[q'..])
  {
    SearchLeftmost(line, 0, HasName);
  }

  /** line.split('=')[1]: the text between the first and the second '=' (or
      the end); None where Python raises IndexError (no '=' in the line). */
  function ValueField(line: string): Option<string> {
    var i := Span(line, NotEquals);
    if i == |line| then None
    else
      var rest := line[i + 1..];
      Some(rest[..Span(rest, NotEquals)])
  }

  /** The field is missing exactly when the line has no '=', and a field
      holds no '='. */
  lemma ValueFieldShape(line: string)
    ensures ValueField(line).None? <==> forall i :: 0 <= i < |line| ==> NotEquals(line[i])
    ensures ValueField(line).Some? ==> forall i :: 0 <= i < |ValueField(line).value| ==> NotEquals(ValueField(line).value[i])
  {
    SpanStops(line, NotEquals);
    var i := Span(line, NotEquals);
    if i < |line| {
      SpanStops(line[i + 1..], NotEquals);
    }
  }

  /** The field after the first '=' is recovered up to the next '='. */
  lemma ValueFieldRoundTrip(head: string, v: string, tail: string)
    requires forall i :: 0 <= i < |head| ==> NotEquals(head[i])
    requires forall i :: 0 <= i < |v| ==> NotEquals(v[i])
    requires |tail| == 0 || tail[0] == '='
    ensures ValueField(head + "=" + v + tail) == Some(v)
  {
    var line := head + "=" + v + tail;
    assert line == head + ("=" + v + tail);
    SpanOfRun(head, "=" + v + tail, NotEquals);
    var rest := line[|head| + 1..];
    assert rest == v + tail;
    SpanOfRun(v, tail, NotEquals);
    assert rest[..|v|] == v;
  }

  // ---- The state machine ----------------------------------------------------

  /** One row of a vegetation's table: the stage and the variable's value. */
  datatype Record = Record(stage: nat, value: real)

  /** current_veg, veg_name, current_stage, and veg_data: a dictionary of
      lists whose keys are kept in insertion order in names. */
  datatype ParserState = ParserState(currentVeg: Option<string>, vegName: Option<string>, stage: Option<nat>,
                                     names: seq<string>, data: map<string, seq<Record>>)

  const Initial: ParserState := ParserState(None, None, None, [], map[])

  /** The names are listed once each, are exactly the keys, and every key
      holds at least one record (defaultdict creates a key only on
      append). */
  ghost predicate Wf(st: ParserState) {
    (forall i, j :: 0 <= i < j < |st.names| ==> st.names[i] != st.names[j])
    && (forall n :: n in st.data <==> n in st.names)
    && (forall n :: n in st.data ==> |st.data[n]| > 0)
  }

  /** veg_data[name].append(rec). */
  function AddRecord(st: ParserState, name: string, rec: Record): (st': ParserState)
    ensures st'.data.Keys == st.data.Keys + {name}
    ensures st'.data[name] == (if name in st.data then st.data[name] else []) + [rec]
    ensures forall n :: n in st.data && n != name ==> st'.data[n] == st.data[n]
    ensures st'.currentVeg == st.currentVeg && st'.vegName == st.vegName && st'.stage == st.stage
  {
    var old_ := if name in st.data then st.data[name] else [];
    st.(names := if name in st.data then st.names else st.names + [name],
        data := st.data[name := old_ + [rec]])
  }

  /** Appending a record keeps the names distinct, equal to the keys, and
      every key non-empty. */
  lemma AddRecordWf(st: ParserState, name: string, rec: Record)
    requires Wf(st)
    ensures Wf(AddRecord(st, name, rec))
  {
    var st' := AddRecord(st, name, rec);
    if name !in st.data {
      forall i, j | 0 <= i < j < |st'.names|
        ensures st'.names[i] != st'.names[j]
      {
        if j == |st.names| {
          assert st'.names[i] == st.names[i];
        }
      }
    }
  }

  /** A VEGNAME assignment inside a block sets the name; otherwise the
      state is kept. */
  function NameStep(st: ParserState, line: string): ParserState {
    var found := FindVegName(line);
    if st.currentVeg.Some? && found.Some? then st.(vegName := found) else st
  }

  /** The line starts with the variable and both a stage and a name are
      known. */
  predicate IsValueLine(st: ParserState, line: string, variable: string) {
    StartsWith(line, variable) && st.stage.Some? && st.vegName.Some?
  }

  /** A value line: the record is appended when the text after the first
      '=' parses, and the line is skipped otherwise. */
  function ValueStep(st: ParserState, line: string, parse: string -> Option<real>): ParserState
    requires st.stage.Some? && st.vegName.Some?
  {
    match ValueField(line)
    case None => st
    case Some(field) =>
      match parse(Strip(field))
      case None => st
      case Some(v) => AddRecord(st, st.vegName.value, Record(st.stage.value, v))
  }

  /** After the name: a Stage header sets the stage once a name is known;
      otherwise a value line of the variable is read. */
  function StageStep(st: ParserState, line: string, variable: string, parse: string -> Option<real>): ParserState {
    var stageNo := HeaderDigits(line, StageTag);
    if stageNo.Some? && st.vegName.Some? then st.(stage := Some(DigitsValue(stageNo.value)))
    else if IsValueLine(st, line, variable) then ValueStep(st, line, parse)
    else st
  }

  /** One line, with malformed value lines skipped: a VegNo header starts a
      block and clears the name; any other line goes through the name, the
      stage and the value in turn. */
  function Step(st: ParserState, raw: string, variable: string, parse: string -> Option<real>): ParserState {
    var line := Strip(raw);
    match HeaderDigits(line, VegNoTag)
    case Some(ds) => st.(currentVeg := Some("VegNo_" + ds), vegName := None)
    case None => StageStep(NameStep(st, line), line, variable, parse)
  }

  /** The line reaches the value branch: it is no header that is acted on,
      starts with the variable, and a name and a stage are known. */
  predicate ReachesValue(st: ParserState, line: string, variable: string) {
    var st1 := NameStep(st, line);
    && HeaderDigits(line, VegNoTag).None?
    && !(HeaderDigits(line, StageTag).Some? && st1.vegName.Some?)
    && IsValueLine(st1, line, variable)
  }

  /** The state after a sequence of lines. */
  function Run(st: ParserState, lines: seq<string>, variable: string, parse: string -> Option<real>): ParserState {
    if |lines| == 0 then st
    else Step(Run(st, lines[..|lines| - 1], variable, parse), lines[|lines| - 1], variable, parse)
  }

  /** The error that escapes the reader. */
  datatype Fault = IndexError(line: string)

  /** One line as the program is written: a value line without any '='
      makes line.split('=')[1] raise IndexError, which the except
      ValueError clause does not catch. */
  function StepAsWritten(st: ParserState, raw: string, variable: string, parse: string -> Option<real>)
    : (r: Result<ParserState, Fault>)
  {
    var line := Strip(raw);
    if ReachesValue(st, line, variable) && ValueField(line).None? then Failure(IndexError(line))
    else Success(Step(st, raw, variable, parse))
  }

  function RunAsWritten(st: ParserState, lines: seq<string>, variable: string, parse: string -> Option<real>)
    : Result<ParserState, Fault>
  {
    if |lines| == 0 then Success(st)
    else
      var st1 :- RunAsWritten(st, lines[..|lines| - 1], variable, parse);
      StepAsWritten(st1, lines[|lines| - 1], variable, parse)
  }

  // ---- Properties of one line -----------------------------------------------

  /** A VegNo header starts a block: the name is cleared, the stage is kept
      and nothing is recorded. */
  lemma BlockHeaderClearsName(st: ParserState, raw: string, variable: string, parse: string -> Option<real>)
    requires HeaderDigits(Strip(raw), VegNoTag).Some?
    ensures var st' := Step(st, raw, variable, parse);
            && st'.currentVeg == Some("VegNo_" + HeaderDigits(Strip(raw), VegNoTag).value)
            && st'.vegName.None?
            && st'.stage == st.stage
            && st'.names == st.names && st'.data == st.data
  {
  }

  /** The stage changes only on a Stage header read while a name is known,
      and then becomes the header's number; a Stage header outside a block
      or before any VEGNAME leaves it alone. */
  lemma StageNeedsName(st: ParserState, raw: string, variable: string, parse: string -> Option<real>)
    ensures var line := Strip(raw);
            var st' := Step(st, raw, variable, parse);
            st'.stage != st.stage ==>
              && HeaderDigits(line, VegNoTag).None?
              && HeaderDigits(line, StageTag).Some?
              && st'.vegName.Some?
              && st'.stage == Some(DigitsValue(HeaderDigits(line, StageTag).value))
    ensures var line := Strip(raw);
            HeaderDigits(line, VegNoTag).None? && HeaderDigits(line, StageTag).Some? && st.vegName.Some? ==>
              Step(st, raw, variable, parse).stage == Some(DigitsValue(HeaderDigits(line, StageTag).value))
    ensures var line := Strip(raw);
            HeaderDigits(line, StageTag).Some? && st.currentVeg.None? && st.vegName.None? ==>
              Step(st, raw, variable, parse).stage == st.stage
  {
  }

  /** A record is added only for a line that starts with the variable, when
      a name and a stage are known and the text after '=' parses; it is
      the current stage with the parsed value, appended under the current
      name. Every other line leaves the records alone. */
  lemma RecordsOnlyValueLines(st: ParserState, raw: string, variable: string, parse: string -> Option<real>)
    ensures var line := Strip(raw);
            var st' := Step(st, raw, variable, parse);
            st'.data != st.data ==>
              && StartsWith(line, variable)
              && HeaderDigits(line, VegNoTag).None?
              && st'.vegName.Some? && st'.stage.Some? && st'.stage == st.stage
              && ValueField(line).Some?
              && parse(Strip(ValueField(line).value)).Some?
              && st'.data.Keys == st.data.Keys + {st'.vegName.value}
              && st'.data[st'.vegName.value]
                 == (if st'.vegName.value in st.data then st.data[st'.vegName.value] else [])
                    + [Record(st.stage.value, parse(Strip(ValueField(line).value)).value)]
  {
  }

  /** A value line whose text after '=' does not parse is skipped, and so
      (in the corrected reader) is one without '='; reading goes on with
      the same records. */
  lemma MalformedSkipped(st: ParserState, raw: string, variable: string, parse: string -> Option<real>)
    requires var field := ValueField(Strip(raw)); field.None? || parse(Strip(field.value)).None?
    ensures Step(st, raw, variable, parse).data == st.data
    ensures Step(st, raw, variable, parse).names == st.names
  {
    var line := Strip(raw);
    if HeaderDigits(line, VegNoTag).None? {
      var st1 := NameStep(st, line);
      assert st1.data == st.data && st1.names == st.names;
    }
  }

  /** The program as written agrees with the corrected reader on every line
      except a value line without '=', on which it fails. */
  lemma AsWrittenAgrees(st: ParserState, raw: string, variable: string, parse: string -> Option<real>)
    ensures var line := Strip(raw);
            StepAsWritten(st, raw, variable, parse).Failure? <==> ReachesValue(st, line, variable) && ValueField(line).None?
    ensures StepAsWritten(st, raw, variable, parse).Success? ==>
              StepAsWritten(st, raw, variable, parse).value == Step(st, raw, variable, parse)
  {
  }

  // ---- Properties of a whole file -------------------------------------------

  /** Whenever the program as written reads a whole file without error, it
      ends in the state of the corrected reader; so what is proved about
      Run holds for every file the program reads. */
  lemma {:induction false} RunAsWrittenAgrees(st: ParserState, lines: seq<string>, variable: string,
                                              parse: string -> Option<real>)
    ensures RunAsWritten(st, lines, variable, parse).Success? ==>
              RunAsWritten(st, lines, variable, parse).value == Run(st, lines, variable, parse)
  {
    if |lines| > 0 {
      var init := lines[..|lines| - 1];
      RunAsWrittenAgrees(st, init, variable, parse);
      var prev := RunAsWritten(st, init, variable, parse);
      if prev.Success? {
        AsWrittenAgrees(prev.value, lines[|lines| - 1], variable, parse);
      }
    }
  }

  /** Records are only ever appended: what was collected for a name stays a
      prefix of what is collected later, and names keep their order, so
      blocks with the same name merge in file order. */
  lemma {:induction false} RunAppends(st: ParserState, lines: seq<string>, variable: string, parse: string -> Option<real>)
    ensures var st' := Run(st, lines, variable, parse);
            && st.names <= st'.names
            && st.data.Keys <= st'.data.Keys
            && forall n :: n in st.data ==> st.data[n] <= st'.data[n]
  {
    if |lines| > 0 {
      var mid := Run(st, lines[..|lines| - 1], variable, parse);
      RunAppends(st, lines[..|lines| - 1], variable, parse);
      StepAppends(mid, lines[|lines| - 1], variable, parse);
    }
  }

  lemma StepAppends(st: ParserState, raw: string, variable: string, parse: string -> Option<real>)
    ensures var st' := Step(st, raw, variable, parse);
            && st.names <= st'.names
            && st.data.Keys <= st'.data.Keys
            && forall n :: n in st.data ==> st.data[n] <= st'.data[n]
  {
    var line := Strip(raw);
    if HeaderDigits(line, VegNoTag).None? {
      var st1 := NameStep(st, line);
      if IsValueLine(st1, line, variable) {
        ValueStepAppends(st1, line, parse);
      }
    }
  }

  lemma ValueStepAppends(st: ParserState, line: string, parse: string -> Option<real>)
    requires st.stage.Some? && st.vegName.Some?
    ensures var st' := ValueStep(st, line, parse);
            && st.names <= st'.names
            && st.data.Keys <= st'.data.Keys
            && forall n :: n in st.data ==> st.data[n] <= st'.data[n]
  {
  }

  /** From the initial state, the collected names are distinct, are the
      keys, and each has at least one record. */
  lemma {:induction false} RunWf(st: ParserState, lines: seq<string>, variable: string, parse: string -> Option<real>)
    requires Wf(st)
    ensures Wf(Run(st, lines, variable, parse))
  {
    if |lines| > 0 {
      RunWf(st, lines[..|lines| - 1], variable, parse);
      StepWf(Run(st, lines[..|lines| - 1], variable, parse), lines[|lines| - 1], variable, parse);
    }
  }

  lemma StepWf(st: ParserState, raw: string, variable: string, parse: string -> Option<real>)
    requires Wf(st)
    ensures Wf(Step(st, raw, variable, parse))
  {
    var line := Strip(raw);
    var st1 := NameStep(st, line);
    if ReachesValue(st, line, variable) && ValueField(line).Some? && parse(Strip(ValueField(line).value)).Some? {
      AddRecordWf(st1, st1.vegName.value, Record(st1.stage.value, parse(Strip(ValueField(line).value)).value));
    }
  }

  /** A value line without '=' after a block, a name and a stage: the
      program stops with IndexError where the corrected reader skips the
      line and returns no records. */
  lemma MissingEqualsFails(parse: string -> Option<real>)
    ensures var lines := ["[VegNo_1]", "VEGNAME='G'", "[Stage_1]", "LAI"];
            && RunAsWritten(Initial, lines, "LAI", parse) == Failure(IndexError("LAI"))
            && Run(Initial, lines, "LAI", parse).data == map[]
  {
    ExampleBlock(parse);
    ExampleName(parse);
    ExampleStage(parse);
    ExampleValue(parse);
    var st1 := Initial.(currentVeg := Some("VegNo_1"));
    var st2 := st1.(vegName := Some("G"));
    var st3 := st2.(stage := Some(1));
    RunFour(Initial, "[VegNo_1]", "VEGNAME='G'", "[Stage_1]", "LAI", "LAI", parse);
    RunFourAsWritten(Initial, st1, st2, st3, "[VegNo_1]", "VEGNAME='G'", "[Stage_1]", "LAI", "LAI", parse);
  }

  /** Four lines read one after the other. */
  lemma RunFour(st: ParserState, a: string, b: string, c: string, d: string,
                variable: string, parse: string -> Option<real>)
    ensures Run(st, [a, b, c, d], variable, parse)
            == Step(Step(Step(Step(st, a, variable, parse), b, variable, parse), c, variable, parse), d, variable, parse)
  {
    assert [a][..0] == [];
    assert Run(st, [a], variable, parse) == Step(st, a, variable, parse);
    assert [a, b][..1] == [a];
    assert Run(st, [a, b], variable, parse) == Step(Step(st, a, variable, parse), b, variable, parse);
    assert [a, b, c][..2] == [a, b];
    assert [a, b, c, d][..3] == [a, b, c];
  }

  /** Four lines read by the program as written, the first three without
      failure. */
  lemma RunFourAsWritten(st: ParserState, s1: ParserState, s2: ParserState, s3: ParserState,
                         a: string, b: string, c: string, d: string, variable: string, parse: string -> Option<real>)
    requires StepAsWritten(st, a, variable, parse) == Success(s1)
    requires StepAsWritten(s1, b, variable, parse) == Success(s2)
    requires StepAsWritten(s2, c, variable, parse) == Success(s3)
    ensures RunAsWritten(st, [a, b, c, d], variable, parse) == StepAsWritten(s3, d, variable, parse)
  {
    assert [a][..0] == [];
    assert RunAsWritten(st, [a], variable, parse) == Success(s1);
    assert [a, b][..1] == [a];
    assert RunAsWritten(st, [a, b], variable, parse) == Success(s2);
    assert [a, b, c][..2] == [a, b];
    assert RunAsWritten(st, [a, b, c], variable, parse) == Success(s3);
    assert [a, b, c, d][..3] == [a, b, c];
  }

  lemma ExampleBlock(parse: string -> Option<real>)
    ensures Step(Initial, "[VegNo_1]", "LAI", parse) == Initial.(currentVeg := Some("VegNo_1"))
    ensures StepAsWritten(Initial, "[VegNo_1]", "LAI", parse) == Success(Initial.(currentVeg := Some("VegNo_1")))
  {
    HeaderRoundTrip(VegNoTag, "1", "");
    assert VegNoTag + "1" + "]" + "" == "[VegNo_1]";
    assert Strip("[VegNo_1]") == "[VegNo_1]";
    assert "VegNo_" + "1" == "VegNo_1";
  }

  lemma ExampleName(parse: string -> Option<real>)
    ensures var st1 := Initial.(currentVeg := Some("VegNo_1"));
            && Step(st1, "VEGNAME='G'", "LAI", parse) == st1.(vegName := Some("G"))
            && StepAsWritten(st1, "VEGNAME='G'", "LAI", parse) == Success(st1.(vegName := Some("G")))
  {
    var line := "VEGNAME='G'";
    ExampleNameFound();
    assert Strip(line) == line;
    assert line[0] == 'V';
    assert HeaderDigits(line, VegNoTag).None?;
    assert HeaderDigits(line, StageTag).None?;
    assert !StartsWith(line, "LAI");
  }

  lemma ExampleNameFound()
    ensures FindVegName("VEGNAME='G'") == Some("G")
  {
    var line := "VEGNAME='G'";
    NameRoundTrip("", "", "G", "");
    assert line == VegNameKey + ("" + ("=" + ("" + ("'" + ("G" + ("'" + ""))))));
    assert line[0..] == line;
    assert HasName(line[0..]);
  }

  lemma ExampleStage(parse: string -> Option<real>)
    ensures var st2 := Initial.(currentVeg := Some("VegNo_1"), vegName := Some("G"));
            && Step(st2, "[Stage_1]", "LAI", parse) == st2.(stage := Some(1))
            && StepAsWritten(st2, "[Stage_1]", "LAI", parse) == Success(st2.(stage := Some(1)))
  {
    var line := "[Stage_1]";
    assert Strip(line) == line;
    HeaderRoundTrip(StageTag, "1", "");
    assert StageTag + "1" + "]" + "" == line;
    assert !StartsWith(line, VegNoTag);
    assert DigitsValue("1") == 1;
  }

  lemma ExampleValue(parse: string -> Option<real>)
    ensures var st3 := Initial.(currentVeg := Some("VegNo_1"), vegName := Some("G"), stage := Some(1));
            && Step(st3, "LAI", "LAI", parse) == st3
            && StepAsWritten(st3, "LAI", "LAI", parse) == Failure(IndexError("LAI"))
  {
    var line := "LAI";
    assert Strip(line) == line;
    assert !StartsWith(line, VegNoTag) && !StartsWith(line, StageTag) && StartsWith(line, "LAI");
    assert SearchFrom(line, 3, HasName).None?;
    assert SearchFrom(line, 2, HasName).None?;
    assert SearchFrom(line, 1, HasName).None?;
    assert FindVegName(line).None?;
    assert Span(line, NotEquals) == 3;
    assert ValueField(line).None?;
  }

  // ---- Result assembly --------------------------------------------------------

  predicate SortedByStage(rs: seq<Record>) {
    forall i, j :: 0 <= i < j < |rs| ==> rs[i].stage <= rs[j].stage
  }

  /** Insert a record into a table ordered by stage. */
  function Insert(r: Record, rs: seq<Record>): (out: seq<Record>)
    requires SortedByStage(rs)
    ensures SortedByStage(out)
    ensures multiset(out) == multiset(rs) + multiset{r}
  {
    if |rs| == 0 then [r]
    else if r.stage <= rs[0].stage then [r] + rs
    else
      var tail := Insert(r, rs[1..]);
      assert multiset(tail) == multiset(rs[1..]) + multiset{r};
      assert forall k :: 0 <= k < |tail| ==> rs[0].stage <= tail[k].stage by {
        forall k | 0 <= k < |tail|
          ensures rs[0].stage <= tail[k].stage
        {
          assert tail[k] in multiset(tail);
        }
      }
      assert rs == [rs[0]] + rs[1..];
      [rs[0]] + tail
  }

  /** sort_values('Stage'): the records ordered by stage. pandas' default
      sort is not stable, so only the order by stage and the records
      themselves are promised, not the order among equal stages. */
  function SortByStage(rs: seq<Record>): (out: seq<Record>)
    ensures SortedByStage(out)
    ensures multiset(out) == multiset(rs)
  {
    if |rs| == 0 then []
    else
      assert rs == [rs[0]] + rs[1..];
      Insert(rs[0], SortByStage(rs[1..]))
  }

  // ---- The reader -------------------------------------------------------------

  /** The reader's state variables, updated line by line. */
  class EtvParser {
    var currentVeg: Option<string>
    var vegName: Option<string>
    var currentStage: Option<nat>
    var names: seq<string>
    var data: map<string, seq<Record>>

    function State(): ParserState
      reads this
    {
      ParserState(currentVeg, vegName, currentStage, names, data)
    }

    constructor ()
      ensures State() == Initial
    {
      currentVeg, vegName, currentStage := None, None, None;
      names, data := [], map[];
    }

    /** The body of the for loop over the lines. */
    method Feed(raw: string, variable: string, parse: string -> Option<real>)
      modifies this
      ensures State() == Step(old(State()), raw, variable, parse)
    {
      var line := Strip(raw);
      var vegNo := HeaderDigits(line, VegNoTag);
      if vegNo.Some? {
        currentVeg := Some("VegNo_" + vegNo.value);
        vegName := None;
        return;
      }
      NoteName(line);
      var stageNo := HeaderDigits(line, StageTag);
      if stageNo.Some? && vegName.Some? {
        currentStage := Some(DigitsValue(stageNo.value));
        return;
      }
      if StartsWith(line, variable) && currentStage.Some? && vegName.Some? {
        ReadValue(line, parse);
      }
    }

    /** The VEGNAME branch. */
    method NoteName(line: string)
      modifies this
      ensures State() == NameStep(old(State()), line)
    {
      if currentVeg.Some? {
        var found := FindVegName(line);
        if found.Some? {
          vegName := found;
        }
      }
    }

    /** The try block of a value line. */
    method ReadValue(line: string, parse: string -> Option<real>)
      requires currentStage.Some? && vegName.Some?
      modifies this
      ensures State() == ValueStep(old(State()), line, parse)
    {
      var field := ValueField(line);
      if field.Some? {
        var value := parse(Strip(field.value));
        if value.Some? {
          var name := vegName.value;
          var rec := Record(currentStage.value, value.value);
          if name in data {
            data := data[name := data[name] + [rec]];
          } else {
            names := names + [name];
            data := data[name := [rec]];
            assert [] + [rec] == [rec];
          }
        }
      }
    }

    /** The loop over all lines. */
    method FeedAll(lines: seq<string>, variable: string, parse: string -> Option<real>)
      modifies this
      ensures State() == Run(old(State()), lines, variable, parse)
    {
      var i := 0;
      while i < |lines|
        invariant 0 <= i <= |lines|
        invariant State() == Run(old(State()), lines[..i], variable, parse)
      {
        assert lines[..i + 1][..i] == lines[..i];
        Feed(lines[i], variable, parse);
        i := i + 1;
      }
      assert lines[..|lines|] == lines;
    }

    /** The veg_dfs loop: each vegetation's records ordered by stage. */
    method Frames() returns (dfs: map<string, seq<Record>>)
      requires Wf(State())
      ensures dfs.Keys == data.Keys
      ensures forall n :: n in dfs ==> dfs[n] == SortByStage(data[n])
    {
      dfs := map[];
      var i := 0;
      while i < |names|
        invariant 0 <= i <= |names|
        invariant forall n :: n in dfs <==> n in names[..i]
        invariant forall n :: n in dfs ==> n in data && dfs[n] == SortByStage(data[n])
      {
        dfs := dfs[names[i] := SortByStage(data[names[i]])];
        i := i + 1;
      }
      assert names[..|names|] == names;
    }
  }

  /** read_plot_etv without the plot, with a value line without '=' skipped:
      one table per vegetation name that received a value, holding exactly
      its records, ordered by stage. On every file the program as written
      reads without error, the names are the ones it collects. */
  method ReadEtv(lines: seq<string>, variable: string, parse: string -> Option<real>)
    returns (dfs: map<string, seq<Record>>)
    ensures var st := Run(Initial, lines, variable, parse);
            && dfs.Keys == st.data.Keys
            && forall n :: n in dfs ==> |dfs[n]| > 0 && SortedByStage(dfs[n]) && multiset(dfs[n]) == multiset(st.data[n])
    ensures RunAsWritten(Initial, lines, variable, parse).Success? ==>
              dfs.Keys == RunAsWritten(Initial, lines, variable, parse).value.data.Keys
  {
    var parser := new EtvParser();
    parser.FeedAll(lines, variable, parse);
    RunWf(Initial, lines, variable, parse);
    dfs := parser.Frames();
    RunAsWrittenAgrees(Initial, lines, variable, parse);
  }
}
