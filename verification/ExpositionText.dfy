/** The filter on texts as they are written: HELP and TYPE lines made of words, families with
    their kind as data (src/prometheus/query.go, OpenMetrics 1.0, section "Metric Types"). */
module ExpositionText {
  import opened RawData
  import opened Text
  import opened ExpositionFilter

  // ---- lines made of words -----------------------------------------------

  /** Not empty and without white space. */
  predicate IsWord(w: string) {
    w != "" && forall i :: 0 <= i < |w| ==> !IsSpace(w[i])
  }

  lemma TrimLeftWord(w: string, rest: string)
    requires IsWord(w)
    ensures TrimLeft(w + rest) == w + rest && TrimLeft(" " + w + rest) == w + rest
  {
    assert (w + rest)[0] == w[0];
    assert (" " + w + rest)[1..] == w + rest;
  }

  /** The first word ends at the first space. */
  lemma {:induction false} WordOf(w: string, rest: string)
    requires (forall i :: 0 <= i < |w| ==> !IsSpace(w[i])) && (rest == "" || IsSpace(rest[0]))
    ensures Word(w + rest) == w
  {
    if w == "" {
      assert w + rest == rest;
    } else {
      assert (w + rest)[1..] == w[1..] + rest;
      WordOf(w[1..], rest);
    }
  }

  /** A leading space does not matter. */
  lemma FieldsAfterSpace(w: string, rest: string)
    requires IsWord(w)
    ensures Fields(" " + (w + rest)) == Fields(w + rest)
  {
    TrimLeftWord(w, rest);
    assert " " + (w + rest) == " " + w + rest;
  }

  /** Fields gives back the first word and the fields of the rest. */
  lemma FieldsOfWord(w: string, rest: string)
    requires IsWord(w) && (rest == "" || IsSpace(rest[0]))
    ensures Fields(w + rest) == [w] + Fields(rest)
  {
    TrimLeftWord(w, rest);
    WordOf(w, rest);
    assert (w + rest)[|w|..] == rest;
  }

  lemma NextField(w: string, rest: string)
    requires IsWord(w) && (rest == "" || IsSpace(rest[0]))
    ensures Fields(" " + (w + rest)) == [w] + Fields(rest)
  {
    FieldsAfterSpace(w, rest);
    FieldsOfWord(w, rest);
  }

  lemma Regrouped(hash: string, w: string, name: string, rest: string)
    ensures hash + " " + w + " " + name + rest == hash + (" " + (w + (" " + (name + rest))))
  {
  }

  lemma InFront(a: string, b: string, c: string, rest: seq<string>)
    ensures [a] + ([b] + ([c] + rest)) == [a, b, c] + rest
  {
  }

  /** Words with spaces between them are taken apart again. */
  lemma FieldsOfThree(hash: string, w: string, name: string, rest: string)
    requires IsWord(hash) && IsWord(w) && IsWord(name) && (rest == "" || IsSpace(rest[0]))
    ensures Fields(hash + " " + w + " " + name + rest) == [hash, w, name] + Fields(rest)
  {
    var named := " " + (name + rest);
    calc {
      Fields(hash + " " + w + " " + name + rest);
      { Regrouped(hash, w, name, rest); }
      Fields(hash + (" " + (w + named)));
      { FieldsOfWord(hash, " " + (w + named)); }
      [hash] + Fields(" " + (w + named));
      { NextField(w, named); }
      [hash] + ([w] + Fields(named));
      { NextField(name, rest); }
      [hash] + ([w] + ([name] + Fields(rest)));
      { InFront(hash, w, name, Fields(rest)); }
      [hash, w, name] + Fields(rest);
    }
  }

  lemma {:induction false} TrimRightWord(s: string)
    requires s != "" && !IsSpace(s[|s| - 1])
    ensures TrimRight(s) == s
  {
  }

  /** White space is what Unicode lists as such. */
  lemma SpaceIff(c: char)
    ensures IsSpace(c) <==>
            c in {'\U{9}', '\U{A}', '\U{B}', '\U{C}', '\U{D}', ' ', '\U{85}', '\U{A0}', '\U{1680}', '\U{2000}',
                  '\U{2001}', '\U{2002}', '\U{2003}', '\U{2004}', '\U{2005}', '\U{2006}', '\U{2007}', '\U{2008}',
                  '\U{2009}', '\U{200A}', '\U{2028}', '\U{2029}', '\U{202F}', '\U{205F}', '\U{3000}'}
  {
  }

  lemma SpacesAndLetters()
    ensures !IsSpace('#') && IsSpace(' ')
    ensures IsWord("#") && IsWord("TYPE") && IsWord("HELP")
  {
  }

  /** The TYPE line of a family. */
  function TypeLine(name: string, kind: string): string {
    "# TYPE " + name + " " + kind
  }

  lemma TypeLineTrimmed(name: string, kind: string)
    requires IsWord(kind)
    ensures TrimSpace(TypeLine(name, kind)) == TypeLine(name, kind)
    ensures IsTypeLine(TypeLine(name, kind)) && !IsHelpLine(TypeLine(name, kind))
  {
    var line := TypeLine(name, kind);
    SpacesAndLetters();
    assert line[0] == '#' && line[|line| - 1] == kind[|kind| - 1];
    TrimRightWord(line);
    assert line[..7] == "# TYPE ";
    assert line[2] == 'T';
  }

  lemma TypeLineFields(name: string, kind: string)
    requires IsWord(name) && IsWord(kind)
    ensures Fields(TypeLine(name, kind)) == ["#", "TYPE", name, kind]
  {
    SpacesAndLetters();
    assert TypeLine(name, kind) == "#" + " " + "TYPE" + " " + name + (" " + kind);
    FieldsOfThree("#", "TYPE", name, " " + kind);
    assert kind + "" == kind;
    FieldsAfterSpace(kind, "");
    FieldsOfWord(kind, "");
  }

  /** A TYPE line starts skipping exactly for the kinds info and stateset, whatever the state. */
  lemma TypeLineEffect(st: State, name: string, kind: string)
    requires IsWord(name) && IsWord(kind)
    ensures Next(st, TypeLine(name, kind)) ==
            if kind == "info" || kind == "stateset" then State(true, name) else State(false, "")
    ensures Keeps(st, TypeLine(name, kind)) <==> kind != "info" && kind != "stateset"
    ensures UnsupportedNames([TypeLine(name, kind)]) ==
            if kind == "info" || kind == "stateset" then [name] else []
  {
    TypeLineTrimmed(name, kind);
    TypeLineFields(name, kind);
    var line := TypeLine(name, kind);
    assert [line][1..] == [];
    assert Fields(line)[2] == name && Fields(line)[3] == kind;
  }

  /** One declared family with one sample: both lines go and the family is listed as skipped
      exactly if its kind is info or stateset; otherwise both stay. */
  lemma OneFamily(name: string, kind: string, sample: string)
    requires IsWord(name) && IsWord(kind) && IsSample(sample)
    ensures Kept(START, [TypeLine(name, kind), sample]) ==
            if kind == "info" || kind == "stateset" then [] else [TypeLine(name, kind), sample]
    ensures UnsupportedNames([TypeLine(name, kind), sample]) ==
            if kind == "info" || kind == "stateset" then [name] else []
  {
    var line := TypeLine(name, kind);
    var lines := [line, sample];
    assert lines[1..] == [sample] && [sample][1..] == [];
    TypeLineEffect(START, name, kind);
    var st := Next(START, line);
    assert Kept(st, [sample]) == if Keeps(st, sample) then [sample] + Kept(Next(st, sample), []) else [];
    assert !IsTypeLine(TrimSpace(sample)) && !IsHelpLine(TrimSpace(sample));
    assert !IsUnsupportedType(sample);
    assert UnsupportedNames([sample]) == UnsupportedNames([]);
  }

  // ---- HELP lines --------------------------------------------------------

  /** The HELP line of a family, with any text. */
  function HelpLine(name: string, help: string): string {
    "# HELP " + name + " " + help
  }

  lemma {:induction false} TrimRightPrefix(s: string)
    ensures TrimRight(s) <= s
  {
    if s != "" && IsSpace(s[|s| - 1]) {
      TrimRightPrefix(s[..|s| - 1]);
    }
  }

  /** Trimming the right end stops at a text that does not end in space. */
  lemma {:induction false} TrimRightAfter(p: string, rest: string)
    requires p != "" && !IsSpace(p[|p| - 1])
    ensures TrimRight(p + rest) == p + TrimRight(rest)
  {
    if rest == "" {
      assert p + rest == p;
    } else if IsSpace(rest[|rest| - 1]) {
      assert (p + rest)[..|p + rest| - 1] == p + rest[..|rest| - 1];
      TrimRightAfter(p, rest[..|rest| - 1]);
    }
  }

  lemma HelpLineParts(name: string, help: string) returns (rest: string)
    requires IsWord(name)
    ensures TrimSpace(HelpLine(name, help)) == "# HELP " + name + rest
    ensures rest == "" || IsSpace(rest[0])
  {
    var p := "# HELP " + name;
    SpacesAndLetters();
    rest := TrimRight(" " + help);
    TrimRightPrefix(" " + help);
    assert HelpLine(name, help) == p + (" " + help);
    assert HelpLine(name, help)[0] == '#' && p[|p| - 1] == name[|name| - 1];
    TrimRightAfter(p, " " + help);
    assert rest != "" ==> rest[0] == (" " + help)[0];
  }

  lemma HelpFields(name: string, rest: string)
    requires IsWord(name) && (rest == "" || IsSpace(rest[0]))
    ensures var line := "# HELP " + name + rest;
            && IsHelpLine(line) && !IsTypeLine(line) && |Fields(line)| >= 3 && Fields(line)[2] == name
  {
    var line := "# HELP " + name + rest;
    SpacesAndLetters();
    assert line[..7] == "# HELP " && line[2] == 'H';
    assert line == "#" + " " + "HELP" + " " + name + rest;
    FieldsOfThree("#", "HELP", name, rest);
  }

  /** A HELP line of another family ends the skipping; one of the skipped family goes with it. */
  lemma HelpLineEffect(st: State, name: string, help: string)
    requires IsWord(name) && (st.skip ==> st.current != "")
    ensures Next(st, HelpLine(name, help)) == if st.skip && st.current != name then START else st
    ensures Keeps(st, HelpLine(name, help)) <==> !(st.skip && st.current == name)
    ensures !IsUnsupportedType(HelpLine(name, help))
  {
    var rest := HelpLineParts(name, help);
    HelpFields(name, rest);
  }

  // ---- documents with kinds as data --------------------------------------

  /** A family as it is written: a HELP line, a TYPE line or both in either order, then lines
      that declare nothing. */
  datatype TypedFamily = TypedFamily(name: string, help: Option<string>, kind: Option<string>, helpFirst: bool,
                                     body: seq<string>)

  predicate WellTyped(f: TypedFamily) {
    && IsWord(f.name) && (f.kind.Some? ==> IsWord(f.kind.value)) && (f.help.Some? || f.kind.Some?)
    && forall i :: 0 <= i < |f.body| ==> !IsTypeLine(TrimSpace(f.body[i])) && !IsHelpLine(TrimSpace(f.body[i]))
  }

  function HelpPart(f: TypedFamily): seq<string> {
    if f.help.Some? then [HelpLine(f.name, f.help.value)] else []
  }

  function TypePart(f: TypedFamily): seq<string> {
    if f.kind.Some? then [TypeLine(f.name, f.kind.value)] else []
  }

  function Header(f: TypedFamily): seq<string> {
    if f.helpFirst then HelpPart(f) + TypePart(f) else TypePart(f) + HelpPart(f)
  }

  function Written(families: seq<TypedFamily>): seq<string> {
    if families == [] then [] else Header(families[0]) + families[0].body + Written(families[1..])
  }

  /** Comments that declare nothing. */
  function Comments(lines: seq<string>): seq<string> {
    if lines == [] then []
    else if HasPrefix(TrimSpace(lines[0]), "#") then [lines[0]] + Comments(lines[1..])
    else Comments(lines[1..])
  }

  /** What is left of the families: all of those whose kind is neither info nor stateset; of the
      others a HELP line that comes first, and comments. */
  function Remaining(families: seq<TypedFamily>): seq<string> {
    if families == [] then [] else
      var f := families[0];
      (if f.kind == Some("info") || f.kind == Some("stateset")
       then (if f.helpFirst then HelpPart(f) else []) + Comments(f.body)
       else Header(f) + f.body) + Remaining(families[1..])
  }

  /** The families of kind info or stateset. */
  function SkippedNames(families: seq<TypedFamily>): seq<string> {
    if families == [] then []
    else if families[0].kind == Some("info") || families[0].kind == Some("stateset")
    then [families[0].name] + SkippedNames(families[1..])
    else SkippedNames(families[1..])
  }

  /** A body is kept whole, or only its comments while its family is skipped. */
  lemma {:induction false} BodyKept(st: State, body: seq<string>)
    requires forall i :: 0 <= i < |body| ==> !IsTypeLine(TrimSpace(body[i])) && !IsHelpLine(TrimSpace(body[i]))
    ensures StateAfter(st, body) == st && UnsupportedNames(body) == []
    ensures Kept(st, body) == if st.skip then Comments(body) else body
    decreases |body|
  {
    if body != [] {
      BodyKept(st, body[1..]);
      assert body == [body[0]] + body[1..];
      BodyLine(st, body[0]);
    }
  }

  lemma BodyLine(st: State, line: string)
    requires !IsTypeLine(TrimSpace(line)) && !IsHelpLine(TrimSpace(line))
    ensures Next(st, line) == st && !IsUnsupportedType(line)
    ensures Keeps(st, line) <==> !st.skip || HasPrefix(TrimSpace(line), "#")
  {
  }

  lemma OneLine(st: State, line: string)
    ensures Kept(st, [line]) == if Keeps(st, line) then [line] else []
    ensures StateAfter(st, [line]) == Next(st, line)
    ensures UnsupportedNames([line]) == if IsUnsupportedType(line) then [Fields(TrimSpace(line))[2]] else []
  {
    assert [line][1..] == [];
  }

  lemma {:induction false} NamesConcat(a: seq<string>, b: seq<string>)
    ensures UnsupportedNames(a + b) == UnsupportedNames(a) + UnsupportedNames(b)
  {
    if a == [] {
      assert a + b == b;
    } else {
      assert (a + b)[1..] == a[1..] + b;
      NamesConcat(a[1..], b);
    }
  }

  predicate Skipped(f: TypedFamily) {
    f.kind == Some("info") || f.kind == Some("stateset")
  }

  /** Nothing is skipped, or another family is. */
  predicate Outside(st: State, name: string) {
    st == START || (st.skip && st.current != "" && st.current != name)
  }

  lemma HelpPartKept(f: TypedFamily, st: State)
    requires IsWord(f.name) && Outside(st, f.name)
    ensures Kept(st, HelpPart(f)) == HelpPart(f) && UnsupportedNames(HelpPart(f)) == []
    ensures StateAfter(st, HelpPart(f)) == if f.help.Some? then START else st
  {
    if f.help.Some? {
      HelpLineEffect(st, f.name, f.help.value);
      OneLine(st, HelpLine(f.name, f.help.value));
    }
  }

  lemma TypePartKept(f: TypedFamily, st: State)
    requires IsWord(f.name) && f.kind.Some? && IsWord(f.kind.value)
    ensures Kept(st, TypePart(f)) == if Skipped(f) then [] else TypePart(f)
    ensures UnsupportedNames(TypePart(f)) == if Skipped(f) then [f.name] else []
    ensures StateAfter(st, TypePart(f)) == if Skipped(f) then State(true, f.name) else START
  {
    TypeLineEffect(st, f.name, f.kind.value);
    OneLine(st, TypeLine(f.name, f.kind.value));
  }

  /** A HELP line after the TYPE line of its family shares its fate. */
  lemma HelpFollows(f: TypedFamily, st: State)
    requires IsWord(f.name) && (st == START || st == State(true, f.name))
    ensures Kept(st, HelpPart(f)) == if st.skip then [] else HelpPart(f)
    ensures UnsupportedNames(HelpPart(f)) == [] && StateAfter(st, HelpPart(f)) == st
  {
    if f.help.Some? {
      HelpLineEffect(st, f.name, f.help.value);
      OneLine(st, HelpLine(f.name, f.help.value));
    }
  }

  lemma HeaderKept(f: TypedFamily, st: State)
    requires WellTyped(f) && Outside(st, f.name)
    ensures Kept(st, Header(f)) == if Skipped(f) then if f.helpFirst then HelpPart(f) else [] else Header(f)
    ensures UnsupportedNames(Header(f)) == if Skipped(f) then [f.name] else []
    ensures StateAfter(st, Header(f)) == if Skipped(f) then State(true, f.name) else START
  {
    HelpPartKept(f, st);
    if f.kind.None? {
      assert HelpPart(f) + [] == HelpPart(f) && [] + HelpPart(f) == HelpPart(f);
    } else if f.helpFirst {
      KeptConcat(st, HelpPart(f), TypePart(f));
      NamesConcat(HelpPart(f), TypePart(f));
      TypePartKept(f, StateAfter(st, HelpPart(f)));
    } else {
      KeptConcat(st, TypePart(f), HelpPart(f));
      NamesConcat(TypePart(f), HelpPart(f));
      TypePartKept(f, st);
      HelpFollows(f, StateAfter(st, TypePart(f)));
    }
  }

  lemma FamilyKept(f: TypedFamily, st: State)
    requires WellTyped(f) && Outside(st, f.name)
    ensures Kept(st, Header(f) + f.body) ==
            if Skipped(f) then (if f.helpFirst then HelpPart(f) else []) + Comments(f.body) else Header(f) + f.body
    ensures UnsupportedNames(Header(f) + f.body) == if Skipped(f) then [f.name] else []
    ensures StateAfter(st, Header(f) + f.body) == if Skipped(f) then State(true, f.name) else START
  {
    HeaderKept(f, st);
    KeptConcat(st, Header(f), f.body);
    NamesConcat(Header(f), f.body);
    BodyKept(StateAfter(st, Header(f)), f.body);
  }

  ghost predicate DistinctNeighbours(families: seq<TypedFamily>) {
    forall i :: 0 < i < |families| ==> families[i - 1].name != families[i].name
  }

  /** Every document, to the letter: of families whose neighbours have different names, exactly
      those of kind info and stateset are skipped, with all their samples; the rest is kept
      as it is written. */
  lemma {:induction false} WrittenKept(families: seq<TypedFamily>, st: State)
    requires (forall i :: 0 <= i < |families| ==> WellTyped(families[i])) && DistinctNeighbours(families)
    requires families != [] ==> Outside(st, families[0].name)
    ensures Kept(st, Written(families)) == Remaining(families)
    ensures UnsupportedNames(Written(families)) == SkippedNames(families)
    decreases |families|
  {
    if families != [] {
      var f, rest := families[0], families[1..];
      var lines := Header(f) + f.body;
      FamilyKept(f, st);
      KeptConcat(st, lines, Written(rest));
      NamesConcat(lines, Written(rest));
      assert rest != [] ==> families[1].name != f.name;
      assert DistinctNeighbours(rest) by {
        forall i | 0 < i < |rest| ensures rest[i - 1].name != rest[i].name {
          assert families[i + 1 - 1].name != families[i + 1].name;
        }
      }
      WrittenKept(rest, StateAfter(st, lines));
    }
  }

  // ---- what reaches the parser -------------------------------------------

  /** The samples of the families whose kind is neither info nor stateset. */
  function SamplesOfSupported(families: seq<TypedFamily>): seq<string> {
    if families == [] then [] else
      (if families[0].kind == Some("info") || families[0].kind == Some("stateset") then []
       else Samples(families[0].body)) + SamplesOfSupported(families[1..])
  }

  lemma {:induction false} CommentsAreNoSamples(lines: seq<string>)
    ensures Samples(Comments(lines)) == []
  {
    if lines != [] {
      CommentsAreNoSamples(lines[1..]);
      var rest := Comments(lines[1..]);
      assert ([lines[0]] + rest)[1..] == rest;
    }
  }

  lemma DeclarationsAreNoSamples(f: TypedFamily)
    requires WellTyped(f)
    ensures Samples(HelpPart(f)) == [] && Samples(TypePart(f)) == [] && Samples(Header(f)) == []
  {
    if f.help.Some? {
      var rest := HelpLineParts(f.name, f.help.value);
      HelpFields(f.name, rest);
      assert HelpPart(f)[1..] == [];
    }
    if f.kind.Some? {
      TypeLineTrimmed(f.name, f.kind.value);
      assert TypePart(f)[1..] == [];
    }
    SamplesConcat(HelpPart(f), TypePart(f));
    SamplesConcat(TypePart(f), HelpPart(f));
  }

  lemma RemainingSamples(f: TypedFamily)
    requires WellTyped(f)
    ensures Samples(Header(f) + f.body) == Samples(f.body)
    ensures Samples((if f.helpFirst then HelpPart(f) else []) + Comments(f.body)) == []
  {
    DeclarationsAreNoSamples(f);
    CommentsAreNoSamples(f.body);
    SamplesConcat(Header(f), f.body);
    SamplesConcat(if f.helpFirst then HelpPart(f) else [], Comments(f.body));
  }

  lemma {:induction false} SamplesOfRemaining(families: seq<TypedFamily>)
    requires forall i :: 0 <= i < |families| ==> WellTyped(families[i])
    ensures Samples(Remaining(families)) == SamplesOfSupported(families)
  {
    if families != [] {
      var f := families[0];
      SamplesOfRemaining(families[1..]);
      RemainingSamples(f);
      SamplesConcat(if Skipped(f) then (if f.helpFirst then HelpPart(f) else []) + Comments(f.body)
                    else Header(f) + f.body, Remaining(families[1..]));
    }
  }

  /** The promise, with kinds as data: the samples that reach the parser are exactly those of the
      families whose kind is neither info nor stateset, in order, and the families skipped are
      the others. */
  lemma SupportedSamplesReach(families: seq<TypedFamily>)
    requires (forall i :: 0 <= i < |families| ==> WellTyped(families[i])) && DistinctNeighbours(families)
    ensures Samples(Kept(START, Written(families))) == SamplesOfSupported(families)
    ensures UnsupportedNames(Written(families)) == SkippedNames(families)
  {
    WrittenKept(families, START);
    SamplesOfRemaining(families);
  }
}
