/** filterUnsupportedMetrics: a two-variable state machine over the lines of a scrape
    that drops metric families typed "info" or "stateset" (src/prometheus/query.go). */
module ExpositionFilter {
  import opened RawData
  import opened Text

  // ---- strings.TrimSpace and strings.Fields ------------------------------

  predicate IsSpace(c: char) {
    || '\t' <= c <= '\r' || c == ' ' || c == '\U{85}' || c == '\U{A0}' || c == '\U{1680}'
    || '\U{2000}' <= c <= '\U{200A}' || c == '\U{2028}' || c == '\U{2029}' || c == '\U{202F}'
    || c == '\U{205F}' || c == '\U{3000}'
  }

  function TrimLeft(s: string): (r: string)
    ensures |r| <= |s| && (r != "" ==> !IsSpace(r[0]))
  {
    if s != "" && IsSpace(s[0]) then TrimLeft(s[1..]) else s
  }

  function TrimRight(s: string): string {
    if s != "" && IsSpace(s[|s| - 1]) then TrimRight(s[..|s| - 1]) else s
  }

  function TrimSpace(s: string): string {
    TrimRight(TrimLeft(s))
  }

  /** The text up to the first space. */
  function Word(s: string): (w: string)
    ensures |w| <= |s| && (s != "" && !IsSpace(s[0]) ==> w != "")
  {
    if s == "" || IsSpace(s[0]) then "" else [s[0]] + Word(s[1..])
  }

  function Fields(s: string): (fields: seq<string>)
    ensures forall i :: 0 <= i < |fields| ==> fields[i] != ""
    decreases |s|
  {
    var t := TrimLeft(s);
    if t == "" then [] else [Word(t)] + Fields(t[|Word(t)|..])
  }

  // ---- the line handlers -------------------------------------------------

  /** skipUntilNextFamily and currentMetricName */
  datatype State = State(skip: bool, current: string)

  const START := State(false, "")

  const MIN_TYPE_FIELDS := 4
  const MIN_HELP_FIELDS := 3

  predicate IsUnsupportedMetricType(kind: string) {
    kind == "info" || kind == "stateset"
  }

  predicate IsTypeLine(trimmed: string) {
    HasPrefix(trimmed, "# TYPE ")
  }

  predicate IsHelpLine(trimmed: string) {
    HasPrefix(trimmed, "# HELP ")
  }

  function HandleTypeDeclaration(trimmed: string): State {
    var parts := Fields(trimmed);
    if |parts| < MIN_TYPE_FIELDS then State(false, "")
    else if IsUnsupportedMetricType(parts[3]) then State(true, parts[2])
    else State(false, "")
  }

  function HandleHelpDeclaration(trimmed: string, st: State): State {
    var parts := Fields(trimmed);
    if |parts| < MIN_HELP_FIELDS then st
    else if st.skip && st.current != "" && parts[2] != st.current then State(false, "")
    else st
  }

  predicate ShouldSkipLine(trimmed: string, current: string) {
    || (IsHelpLine(trimmed) && |Fields(trimmed)| >= MIN_HELP_FIELDS && Fields(trimmed)[2] == current)
    || !HasPrefix(trimmed, "#")
  }

  function Next(st: State, line: string): State {
    var trimmed := TrimSpace(line);
    if IsTypeLine(trimmed) then HandleTypeDeclaration(trimmed)
    else if IsHelpLine(trimmed) then HandleHelpDeclaration(trimmed, st)
    else st
  }

  predicate Keeps(st: State, line: string) {
    var trimmed := TrimSpace(line);
    if trimmed == "" then !st.skip
    else if IsTypeLine(trimmed) && HandleTypeDeclaration(trimmed).skip then false
    else !(Next(st, line).skip && ShouldSkipLine(trimmed, Next(st, line).current))
  }

  function StateAfter(st: State, lines: seq<string>): State
    decreases |lines|
  {
    if lines == [] then st else StateAfter(Next(st, lines[0]), lines[1..])
  }

  function Kept(st: State, lines: seq<string>): seq<string>
    decreases |lines|
  {
    if lines == [] then [] else
      var rest := Kept(Next(st, lines[0]), lines[1..]);
      if Keeps(st, lines[0]) then [lines[0]] + rest else rest
  }

  /** A TYPE line that names an unsupported type. */
  predicate IsUnsupportedType(line: string) {
    IsTypeLine(TrimSpace(line)) && HandleTypeDeclaration(TrimSpace(line)).skip
  }

  /** The names on the unsupported TYPE lines, in order. */
  function UnsupportedNames(lines: seq<string>): seq<string> {
    if lines == [] then []
    else if IsUnsupportedType(lines[0]) then [Fields(TrimSpace(lines[0]))[2]] + UnsupportedNames(lines[1..])
    else UnsupportedNames(lines[1..])
  }

  /** The loop body for one line. */
  method FilterLine(line: string, skipping: bool, metric: string)
    returns (keep: bool, skip: bool, current: string, declared: bool)
    ensures State(skip, current) == Next(State(skipping, metric), line)
    ensures keep == Keeps(State(skipping, metric), line)
    ensures declared == IsUnsupportedType(line)
    ensures declared ==> current == Fields(TrimSpace(line))[2]
  {
    var trimmed := TrimSpace(line);
    skip, current := skipping, metric;
    if trimmed == "" {
      return !skip, skip, current, false;
    }
    if IsTypeLine(trimmed) {
      var st := HandleTypeDeclaration(trimmed);
      skip, current := st.skip, st.current;
      if skip {
        return false, skip, current, true;
      }
    }
    if IsHelpLine(trimmed) {
      var st := HandleHelpDeclaration(trimmed, State(skip, current));
      skip, current := st.skip, st.current;
    }
    return !(skip && ShouldSkipLine(trimmed, current)), skip, current, false;
  }

  /** The scanner delivers lines until the body ends or a read error stops it. */
  method FilterUnsupportedMetrics(lines: seq<string>, readError: bool)
    returns (filtered: Result<seq<string>>, skipped: seq<string>)
    ensures filtered == if readError then Err(FetchFailed("metrics body")) else Ok(Kept(START, lines))
    ensures skipped == UnsupportedNames(lines)
  {
    var kept: seq<string> := [];
    var skip, current := false, "";
    skipped := [];
    for i := 0 to |lines|
      invariant kept + Kept(State(skip, current), lines[i..]) == Kept(START, lines)
      invariant skipped + UnsupportedNames(lines[i..]) == UnsupportedNames(lines)
    {
      assert lines[i..][0] == lines[i] && lines[i..][1..] == lines[i + 1..];
      var keep, declared;
      keep, skip, current, declared := FilterLine(lines[i], skip, current);
      if declared {
        skipped := skipped + [current];
      }
      if keep {
        kept := kept + [lines[i]];
      }
    }
    assert kept == Kept(START, lines) && skipped == UnsupportedNames(lines);
    filtered := if readError then Err(FetchFailed("metrics body")) else Ok(kept);
  }

  // ---- the filter is idempotent ------------------------------------------

  lemma {:induction false} NothingToDrop(lines: seq<string>)
    requires forall i :: 0 <= i < |lines| ==> !IsUnsupportedType(lines[i])
    ensures Kept(START, lines) == lines
  {
    if lines != [] {
      assert Next(START, lines[0]) == START;
      NothingToDrop(lines[1..]);
    }
  }

  lemma {:induction false} KeptIsSupported(st: State, lines: seq<string>)
    ensures forall l :: l in Kept(st, lines) ==> !IsUnsupportedType(l)
    decreases |lines|
  {
    if lines != [] {
      KeptIsSupported(Next(st, lines[0]), lines[1..]);
    }
  }

  /** Filtering twice is filtering once, for any lines. */
  lemma Idempotent(lines: seq<string>)
    ensures Kept(START, Kept(START, lines)) == Kept(START, lines)
    ensures UnsupportedNames(Kept(START, lines)) == []
  {
    var once := Kept(START, lines);
    KeptIsSupported(START, lines);
    forall i | 0 <= i < |once| ensures !IsUnsupportedType(once[i]) {
      assert once[i] in once;
    }
    NothingToDrop(once);
    NoNames(once);
  }

  lemma {:induction false} NoNames(lines: seq<string>)
    requires forall i :: 0 <= i < |lines| ==> !IsUnsupportedType(lines[i])
    ensures UnsupportedNames(lines) == []
  {
    if lines != [] {
      NoNames(lines[1..]);
    }
  }

  // ---- what the two variables mean ---------------------------------------

  /** A HELP line that names a family. */
  predicate HelpNames(line: string, name: string) {
    IsHelpLine(TrimSpace(line)) && |Fields(TrimSpace(line))| >= MIN_HELP_FIELDS && Fields(TrimSpace(line))[2] == name
  }

  /** A line after which a skipped family is over: any TYPE line, or a HELP line of
      another family. */
  predicate Ends(line: string, name: string) {
    || IsTypeLine(TrimSpace(line))
    || (IsHelpLine(TrimSpace(line)) && |Fields(TrimSpace(line))| >= MIN_HELP_FIELDS && !HelpNames(line, name))
  }

  /** Line j declares an unsupported family that nothing has ended since. */
  ghost predicate Governs(lines: seq<string>, j: int) {
    && 0 <= j < |lines| && IsUnsupportedType(lines[j])
    && forall k :: j < k < |lines| ==> !Ends(lines[k], HandleTypeDeclaration(TrimSpace(lines[j])).current)
  }

  lemma {:induction false} StateSnoc(st: State, lines: seq<string>, line: string)
    ensures StateAfter(st, lines + [line]) == Next(StateAfter(st, lines), line)
    decreases |lines|
  {
    if lines == [] {
      assert [line][1..] == [];
    } else {
      assert (lines + [line])[1..] == lines[1..] + [line];
      StateSnoc(Next(st, lines[0]), lines[1..], line);
    }
  }

  /** The machine is skipping exactly when an earlier unsupported declaration still
      governs, and then it holds that declaration's name: for any sequence of lines. */
  lemma {:induction false} StateMeansGoverned(lines: seq<string>)
    ensures var st := StateAfter(START, lines);
            && (st.skip <==> exists j :: Governs(lines, j))
            && (st.skip <==> st.current != "")
            && (forall j :: Governs(lines, j) ==> st.current == HandleTypeDeclaration(TrimSpace(lines[j])).current)
  {
    if lines != [] {
      var front, last := lines[..|lines| - 1], lines[|lines| - 1];
      assert lines == front + [last];
      StateMeansGoverned(front);
      StateSnoc(START, front, last);
      var st := StateAfter(START, front);
      if IsTypeLine(TrimSpace(last)) {
        TypeGoverns(lines);
      } else {
        forall j ensures Governs(lines, j) <==>
                         Governs(front, j) && !Ends(last, HandleTypeDeclaration(TrimSpace(front[j])).current) {
          GovernsSnoc(front, last, j);
        }
      }
    }
  }

  /** For any lines, a sample line is dropped exactly when an unsupported declaration
      before it still governs. */
  lemma SampleDroppedIffGoverned(lines: seq<string>, i: nat)
    requires i < |lines| && IsSample(lines[i])
    ensures Keeps(StateAfter(START, lines[..i]), lines[i]) <==> !exists j :: Governs(lines[..i], j)
  {
    StateMeansGoverned(lines[..i]);
  }

  lemma TypeGoverns(lines: seq<string>)
    requires lines != [] && IsTypeLine(TrimSpace(lines[|lines| - 1]))
    ensures forall j :: Governs(lines, j) <==> j == |lines| - 1 && IsUnsupportedType(lines[j])
  {
    forall j | Governs(lines, j) ensures j == |lines| - 1 {
      assert Ends(lines[|lines| - 1], HandleTypeDeclaration(TrimSpace(lines[j])).current);
    }
  }

  lemma GovernsSnoc(front: seq<string>, last: string, j: int)
    requires !IsTypeLine(TrimSpace(last))
    ensures Governs(front + [last], j) <==>
            Governs(front, j) && !Ends(last, HandleTypeDeclaration(TrimSpace(front[j])).current)
  {
    var lines := front + [last];
    if Governs(lines, j) {
      assert lines[j] == front[j];
      assert lines[|front|] == last;
      assert forall k :: j < k < |front| ==> lines[k] == front[k];
    }
    if Governs(front, j) && !Ends(last, HandleTypeDeclaration(TrimSpace(front[j])).current) {
      assert forall k :: j < k < |lines| ==> lines[k] == if k == |front| then last else front[k];
    }
  }

  // ---- documents of family blocks ----------------------------------------

  predicate IsSample(line: string) {
    TrimSpace(line) != "" && !HasPrefix(TrimSpace(line), "#")
  }

  function Samples(lines: seq<string>): seq<string> {
    if lines == [] then []
    else if IsSample(lines[0]) then [lines[0]] + Samples(lines[1..])
    else Samples(lines[1..])
  }

  /** A family block: header lines naming the family, then lines that declare nothing. */
  datatype Family = Family(name: string, header: seq<string>, body: seq<string>)

  predicate TypeNames(line: string, name: string) {
    IsTypeLine(TrimSpace(line)) && |Fields(TrimSpace(line))| >= MIN_TYPE_FIELDS && Fields(TrimSpace(line))[2] == name
  }

  /** Headed by HELP and/or TYPE lines naming the family, with at most one TYPE line. */
  ghost predicate WellFormed(f: Family) {
    && f.header != [] && f.name != ""
    && (forall i :: 0 <= i < |f.header| ==> HelpNames(f.header[i], f.name) || TypeNames(f.header[i], f.name))
    && (forall i, j :: 0 <= i < j < |f.header| ==>
                         !(IsTypeLine(TrimSpace(f.header[i])) && IsTypeLine(TrimSpace(f.header[j]))))
    && (forall i :: 0 <= i < |f.body| ==> !IsTypeLine(TrimSpace(f.body[i])) && !IsHelpLine(TrimSpace(f.body[i])))
  }

  ghost predicate HasType(header: seq<string>) {
    exists i :: 0 <= i < |header| && IsTypeLine(TrimSpace(header[i]))
  }

  ghost predicate TypedUnsupported(header: seq<string>) {
    exists i :: 0 <= i < |header| && IsUnsupportedType(header[i])
  }

  function Document(families: seq<Family>): seq<string> {
    if families == [] then [] else families[0].header + families[0].body + Document(families[1..])
  }

  /** Whether a block is dropped: by its own type, or, having no TYPE line, because it
      continues a dropped block of the same name. */
  ghost predicate Dropped(f: Family, dropping: Option<string>) {
    if HasType(f.header) then TypedUnsupported(f.header) else dropping == Some(f.name)
  }

  /** The samples of the blocks that are not dropped, in order. */
  ghost function SurvivingSamples(dropping: Option<string>, families: seq<Family>): seq<string>
    decreases |families|
  {
    if families == [] then [] else
      var f := families[0];
      if Dropped(f, dropping) then SurvivingSamples(Some(f.name), families[1..])
      else Samples(f.body) + SurvivingSamples(None, families[1..])
  }

  function StateFor(dropping: Option<string>): State {
    if dropping.Some? then State(true, dropping.value) else START
  }

  lemma {:induction false} KeptConcat(st: State, a: seq<string>, b: seq<string>)
    ensures Kept(st, a + b) == Kept(st, a) + Kept(StateAfter(st, a), b)
    ensures StateAfter(st, a + b) == StateAfter(StateAfter(st, a), b)
    decreases |a|
  {
    if a == [] {
      assert a + b == b;
    } else {
      assert (a + b)[1..] == a[1..] + b;
      KeptConcat(Next(st, a[0]), a[1..], b);
    }
  }

  lemma {:induction false} SamplesConcat(a: seq<string>, b: seq<string>)
    ensures Samples(a + b) == Samples(a) + Samples(b)
  {
    if a == [] {
      assert a + b == b;
    } else {
      assert (a + b)[1..] == a[1..] + b;
      SamplesConcat(a[1..], b);
    }
  }

  /** A body leaves the state alone; its samples survive iff nothing is being skipped. */
  lemma {:induction false} BodySamples(st: State, body: seq<string>)
    requires forall i :: 0 <= i < |body| ==> !IsTypeLine(TrimSpace(body[i])) && !IsHelpLine(TrimSpace(body[i]))
    ensures StateAfter(st, body) == st
    ensures Samples(Kept(st, body)) == if st.skip then [] else Samples(body)
    decreases |body|
  {
    if body != [] {
      BodySamples(st, body[1..]);
      assert ([body[0]] + Kept(st, body[1..]))[1..] == Kept(st, body[1..]);
    }
  }

  lemma {:induction false} HeaderHasNoSamples(st: State, header: seq<string>)
    requires forall i :: 0 <= i < |header| ==> IsTypeLine(TrimSpace(header[i])) || IsHelpLine(TrimSpace(header[i]))
    ensures Samples(Kept(st, header)) == []
    decreases |header|
  {
    if header != [] {
      HeaderHasNoSamples(Next(st, header[0]), header[1..]);
      var rest := Kept(Next(st, header[0]), header[1..]);
      assert ([header[0]] + rest)[1..] == rest;
    }
  }

  /** Reading a header decides whether its block is dropped. */
  lemma {:induction false} HeaderState(f: Family, dropping: Option<string>, n: nat)
    requires WellFormed(f) && 0 < n <= |f.header|
    requires dropping.Some? ==> dropping.value != ""
    ensures var d := if HasType(f.header[..n]) then TypedUnsupported(f.header[..n]) else dropping == Some(f.name);
            StateAfter(StateFor(dropping), f.header[..n]) == StateFor(if d then Some(f.name) else None)
  {
    var before, line := f.header[..n - 1], f.header[n - 1];
    assert f.header[..n] == before + [line];
    StateSnoc(StateFor(dropping), before, line);
    if n > 1 {
      HeaderState(f, dropping, n - 1);
    }
    HeaderPredicates(before, line);
    if IsTypeLine(TrimSpace(line)) {
      assert !HasType(before);
    }
  }

  lemma HeaderPredicates(before: seq<string>, line: string)
    ensures HasType(before + [line]) <==> HasType(before) || IsTypeLine(TrimSpace(line))
    ensures TypedUnsupported(before + [line]) <==> TypedUnsupported(before) || IsUnsupportedType(line)
  {
    var all := before + [line];
    assert forall i :: 0 <= i < |before| ==> all[i] == before[i];
    assert all[|before|] == line;
  }

  lemma FamilySamples(f: Family, dropping: Option<string>)
    requires WellFormed(f)
    requires dropping.Some? ==> dropping.value != ""
    ensures var lines := f.header + f.body;
            && StateAfter(StateFor(dropping), lines) == StateFor(if Dropped(f, dropping) then Some(f.name) else None)
            && Samples(Kept(StateFor(dropping), lines)) == if Dropped(f, dropping) then [] else Samples(f.body)
  {
    var st := StateFor(dropping);
    KeptConcat(st, f.header, f.body);
    assert f.header[..|f.header|] == f.header;
    HeaderState(f, dropping, |f.header|);
    HeaderHasNoSamples(st, f.header);
    BodySamples(StateAfter(st, f.header), f.body);
    SamplesConcat(Kept(st, f.header), Kept(StateAfter(st, f.header), f.body));
  }

  /** For every document of family blocks, the samples kept are exactly those of the
      blocks that are not dropped, in order. */
  lemma {:induction false} DocumentSamples(families: seq<Family>, dropping: Option<string>)
    requires forall i :: 0 <= i < |families| ==> WellFormed(families[i])
    requires dropping.Some? ==> dropping.value != ""
    ensures Samples(Kept(StateFor(dropping), Document(families))) == SurvivingSamples(dropping, families)
    decreases |families|
  {
    if families != [] {
      var f, st, rest := families[0], StateFor(dropping), Document(families[1..]);
      var lines := f.header + f.body;
      FamilySamples(f, dropping);
      KeptConcat(st, lines, rest);
      SamplesConcat(Kept(st, lines), Kept(StateAfter(st, lines), rest));
      DocumentSamples(families[1..], if Dropped(f, dropping) then Some(f.name) else None);
    }
  }

  /** The samples of the families whose own type is supported or absent. */
  ghost function SupportedSamples(families: seq<Family>): seq<string> {
    if families == [] then [] else
      (if TypedUnsupported(families[0].header) then [] else Samples(families[0].body)) + SupportedSamples(families[1..])
  }

  /** When adjacent families have distinct names, a family's own type alone decides. */
  lemma {:induction false} DistinctNeighbours(families: seq<Family>, dropping: Option<string>)
    requires forall i :: 0 < i < |families| ==> families[i - 1].name != families[i].name
    requires families != [] ==> dropping != Some(families[0].name)
    ensures SurvivingSamples(dropping, families) == SupportedSamples(families)
    decreases |families|
  {
    if families != [] {
      var f, rest := families[0], families[1..];
      assert rest != [] ==> families[1].name != f.name;
      forall i | 0 < i < |rest| ensures rest[i - 1].name != rest[i].name {
        assert families[i + 1 - 1].name != families[i + 1].name;
      }
      DistinctNeighbours(rest, if Dropped(f, dropping) then Some(f.name) else None);
    }
  }

  /** The promise: what reaches the parser is exactly the supported families' samples. */
  lemma SupportedSamplesKept(families: seq<Family>)
    requires forall i :: 0 <= i < |families| ==> WellFormed(families[i])
    requires forall i :: 0 < i < |families| ==> families[i - 1].name != families[i].name
    ensures Samples(Kept(START, Document(families))) == SupportedSamples(families)
  {
    DocumentSamples(families, None);
    DistinctNeighbours(families, None);
  }
}
