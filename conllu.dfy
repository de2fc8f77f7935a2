/**
 * The CoNLL-U line reader of `ConllWrapper.read_conllu`, as a left fold of a
 * single-line step over the lines of the file.
 *
 * A line is what Python yields when iterating over a text file: it keeps its
 * terminating "\n", except possibly the last line of a file that does not end
 * in one. A sentence boundary is the line "\n".
 */
module Conllu {
  import opened Wrappers
  import opened Strings

  /** Positions of the tab-separated fields the reader uses
      (`constants.CONLLU_ID`, `CONLLU_ORTH`, `CONLLU_LEMMA`, `CONLLU_POS`,
      `CONLLU_HEAD`). */
  datatype Layout = Layout(idField: nat, orthField: nat, lemmaField: nat, posField: nat, headField: nat)

  /** The `(dep_id, head_id)` pair stored per word. */
  datatype Relation = Relation(dep: nat, head: int)

  /** The corpus-level fields of the wrapper: one entry per sentence, except
      `roots`, which gets one entry per root word of the whole file. */
  datatype Corpus = Corpus(
    tokens: seq<seq<string>>,
    lemmas: seq<seq<string>>,
    pos: seq<seq<string>>,
    relations: seq<seq<Relation>>,
    roots: seq<nat>)

  /** The per-sentence lists the reader fills until it meets a blank line. */
  datatype Sentence = Sentence(
    relations: seq<Relation>,
    tokens: seq<string>,
    lemmas: seq<string>,
    pos: seq<string>)

  datatype ParseState = ParseState(corpus: Corpus, current: Sentence)

  /** The exceptions the reader can raise on a malformed line. */
  datatype ParseError =
    | IndexError(field: nat)    // the line has no field at this position
    | ValueError(text: string)  // `int()` refused the head field

  const EmptySentence := Sentence([], [], [], [])
  const EmptyCorpus := Corpus([], [], [], [], [])

  predicate SentenceParallel(s: Sentence) {
    |s.relations| == |s.tokens| == |s.lemmas| == |s.pos|
  }

  /** The four per-sentence fields have one entry per sentence, and within each
      sentence one entry per word. */
  predicate Parallel(c: Corpus) {
    && |c.tokens| == |c.lemmas| == |c.pos| == |c.relations|
    && forall k :: 0 <= k < |c.tokens| ==>
         |c.tokens[k]| == |c.lemmas[k]| == |c.pos[k]| == |c.relations[k]|
  }

  predicate IsBlank(line: string) {
    line == "\n"
  }

  predicate StartsWithHash(line: string) {
    |line| > 0 && line[0] == '#'
  }

  function Fields(line: string): seq<string> {
    Split(Strip(line), '\t')
  }

  /** A line the reader passes over without touching any list: a comment, or a
      line whose ID field is not all digits (multiword ranges, empty nodes). */
  predicate Skipped(layout: Layout, line: string) {
    && !IsBlank(line)
    && (StartsWithHash(line)
        || (layout.idField < |Fields(line)| && !IsDigits(Fields(line)[layout.idField])))
  }

  /** A well-formed word line: not blank, not a comment, an all-digit ID, an
      integer HEAD, and ORTH, LEMMA and POS columns present. */
  predicate WordLine(layout: Layout, line: string) {
    && !IsBlank(line) && !StartsWithHash(line)
    && var fields := Fields(line);
    && layout.idField < |fields| && IsDigits(fields[layout.idField])
    && layout.headField < |fields| && ParseInt(fields[layout.headField]).Some?
    && layout.orthField < |fields| && layout.lemmaField < |fields| && layout.posField < |fields|
  }

  /** A line on which the reader raises: the ID column is missing, or the ID
      is all digits and the HEAD column is missing or not an integer, or one
      of ORTH, LEMMA and POS is missing. */
  predicate Malformed(layout: Layout, line: string) {
    && !IsBlank(line) && !StartsWithHash(line)
    && var fields := Fields(line);
    && (|| layout.idField >= |fields|
        || (&& IsDigits(fields[layout.idField])
            && (|| layout.headField >= |fields| || ParseInt(fields[layout.headField]).None?
                || layout.orthField >= |fields| || layout.lemmaField >= |fields|
                || layout.posField >= |fields|)))
  }

  /** What one line contributes: a sentence boundary, nothing, or one word. */
  datatype LineKind =
    | Boundary
    | Ignored
    | Word(relation: Relation, form: string, base: string, tag: string)

  /** The reader's reading of one line, with the exceptions it raises, in the
      order Python evaluates the field accesses (ID, HEAD and `int()` of it,
      then ORTH, LEMMA, POS). */
  function Classify(layout: Layout, line: string): (r: Result<LineKind, ParseError>)
    ensures r == Ok(Boundary) <==> IsBlank(line)
    ensures r == Ok(Ignored) <==> Skipped(layout, line)
    ensures r.Ok? && r.value.Word? <==> WordLine(layout, line)
    ensures r.Err? <==> Malformed(layout, line)
    ensures r.Err? && r.error.IndexError? ==> r.error.field >= |Fields(line)|
    ensures r.Err? && r.error.ValueError? ==> ParseInt(r.error.text).None?
    ensures r.Ok? && r.value.Word? ==>
      var fields := Fields(line);
      && layout.idField < |fields| && IsDigits(fields[layout.idField])
      && layout.headField < |fields| && ParseInt(fields[layout.headField]) == Some(r.value.relation.head)
      && r.value.relation.dep == DigitsValue(fields[layout.idField])
      && layout.orthField < |fields| && r.value.form == fields[layout.orthField]
      && layout.lemmaField < |fields| && r.value.base == fields[layout.lemmaField]
      && layout.posField < |fields| && r.value.tag == fields[layout.posField]
  {
    if IsBlank(line) then Ok(Boundary)
    else if StartsWithHash(line) then Ok(Ignored)
    else
      var fields := Fields(line);
      if layout.idField >= |fields| then Err(IndexError(layout.idField))
      else if !IsDigits(fields[layout.idField]) then Ok(Ignored)
      else if layout.headField >= |fields| then Err(IndexError(layout.headField))
      else if ParseInt(fields[layout.headField]).None? then Err(ValueError(fields[layout.headField]))
      else if layout.orthField >= |fields| then Err(IndexError(layout.orthField))
      else if layout.lemmaField >= |fields| then Err(IndexError(layout.lemmaField))
      else if layout.posField >= |fields| then Err(IndexError(layout.posField))
      else
        var head := ParseInt(fields[layout.headField]).value;
        var dep := DigitsValue(fields[layout.idField]);
        Ok(Word(Relation(dep, head), fields[layout.orthField],
                fields[layout.lemmaField], fields[layout.posField]))
  }

  /** The effect of one classified line on the reader's lists: a boundary
      moves the current sentence into the corpus; a word is appended to the
      current sentence and, when its head is 0, its id to `roots`. */
  function Apply(st: ParseState, kind: LineKind): (r: ParseState)
    ensures |r.corpus.tokens| == |st.corpus.tokens| + (if kind.Boundary? then 1 else 0)
    ensures st.corpus.roots <= r.corpus.roots
    ensures SentenceParallel(st.current) ==> SentenceParallel(r.current)
  {
    var c, s := st.corpus, st.current;
    match kind
    case Boundary =>
      ParseState(
        Corpus(c.tokens + [s.tokens], c.lemmas + [s.lemmas], c.pos + [s.pos],
               c.relations + [s.relations], c.roots),
        EmptySentence)
    case Ignored => st
    case Word(rel, form, base, tag) =>
      ParseState(
        c.(roots := if rel.head == 0 then c.roots + [rel.dep] else c.roots),
        Sentence(s.relations + [rel], s.tokens + [form], s.lemmas + [base], s.pos + [tag]))
  }

  /** The reader's state after the given lines, starting from the corpus
      `start` and an empty current sentence; the first exception ends it. */
  function Parse(layout: Layout, start: Corpus, lines: seq<string>): (r: Result<ParseState, ParseError>)
    ensures r.Ok? ==>
      && start.tokens <= r.value.corpus.tokens && start.lemmas <= r.value.corpus.lemmas
      && start.pos <= r.value.corpus.pos && start.relations <= r.value.corpus.relations
      && start.roots <= r.value.corpus.roots
      && SentenceParallel(r.value.current)
    decreases |lines|
  {
    if lines == [] then Ok(ParseState(start, EmptySentence))
    else
      match Parse(layout, start, lines[..|lines| - 1])
      case Err(e) => Err(e)
      case Ok(st) =>
        match Classify(layout, lines[|lines| - 1])
        case Err(e) => Err(e)
        case Ok(kind) => Ok(Apply(st, kind))
  }

  /** An exception on a prefix of the file is the exception of the whole file. */
  lemma {:induction false} ParseErrorPersists(layout: Layout, start: Corpus, lines: seq<string>, i: nat)
    requires i <= |lines|
    requires Parse(layout, start, lines[..i]).Err?
    ensures Parse(layout, start, lines) == Parse(layout, start, lines[..i])
    decreases |lines| - i
  {
    if i < |lines| {
      assert lines[..i + 1][..i] == lines[..i];
      ParseErrorPersists(layout, start, lines, i + 1);
    } else {
      assert lines[..i] == lines;
    }
  }

  /** The number of sentence boundaries among the lines. */
  function CountBlank(lines: seq<string>): nat
    decreases |lines|
  {
    if lines == [] then 0
    else CountBlank(lines[..|lines| - 1]) + (if IsBlank(lines[|lines| - 1]) then 1 else 0)
  }

  /** Parsing keeps the corpus parallel: each blank line appends one sentence to
      each of the four fields, and each word line one entry to each of the
      four lists of the current sentence. */
  lemma {:induction false} ParseKeepsParallel(layout: Layout, start: Corpus, lines: seq<string>)
    requires Parallel(start)
    requires Parse(layout, start, lines).Ok?
    ensures Parallel(Parse(layout, start, lines).value.corpus)
    ensures SentenceParallel(Parse(layout, start, lines).value.current)
    decreases |lines|
  {
    if lines != [] {
      ParseKeepsParallel(layout, start, lines[..|lines| - 1]);
    }
  }

  /** Every field gets exactly one sentence per blank line; the sentences
      already in `start` are kept as they are. */
  lemma {:induction false} ParseCountsSentences(layout: Layout, start: Corpus, lines: seq<string>)
    requires Parse(layout, start, lines).Ok?
    ensures var c := Parse(layout, start, lines).value.corpus;
      && |c.tokens| == |start.tokens| + CountBlank(lines)
      && |c.lemmas| == |start.lemmas| + CountBlank(lines)
      && |c.pos| == |start.pos| + CountBlank(lines)
      && |c.relations| == |start.relations| + CountBlank(lines)
      && c.tokens[..|start.tokens|] == start.tokens
      && c.lemmas[..|start.lemmas|] == start.lemmas
      && c.pos[..|start.pos|] == start.pos
      && c.relations[..|start.relations|] == start.relations
    decreases |lines|
  {
    if lines != [] {
      var p := lines[..|lines| - 1];
      ParseCountsSentences(layout, start, p);
      var c0 := Parse(layout, start, p).value.corpus;
      var c := Parse(layout, start, lines).value.corpus;
      if Classify(layout, lines[|lines| - 1]).value.Boundary? {
        assert c.tokens == c0.tokens + [Parse(layout, start, p).value.current.tokens];
        assert c.tokens[..|start.tokens|] == c0.tokens[..|start.tokens|];
        assert c.relations[..|start.relations|] == c0.relations[..|start.relations|];
      }
    }
  }

  /** One more line: the fold's step, as a fact about `Parse`. */
  lemma ParseSnoc(layout: Layout, start: Corpus, lines: seq<string>, line: string)
    ensures Parse(layout, start, lines + [line]) ==
      match Parse(layout, start, lines)
      case Err(e) => Err(e)
      case Ok(st) =>
        match Classify(layout, line)
        case Err(e) => Err(e)
        case Ok(kind) => Ok(Apply(st, kind))
  {
    assert (lines + [line])[..|lines|] == lines;
  }

  /** The number of well-formed word lines since the last blank line. */
  function WordLinesSinceBlank(layout: Layout, lines: seq<string>): nat
    decreases |lines|
  {
    if lines == [] then 0
    else if IsBlank(lines[|lines| - 1]) then 0
    else WordLinesSinceBlank(layout, lines[..|lines| - 1]) + (if WordLine(layout, lines[|lines| - 1]) then 1 else 0)
  }

  /** The sentence under construction after the given lines, read straight
      from the columns of the word lines since the last blank line. */
  function OpenSentence(layout: Layout, lines: seq<string>): (s: Sentence)
    ensures SentenceParallel(s)
    ensures |s.tokens| == WordLinesSinceBlank(layout, lines)
    decreases |lines|
  {
    if lines == [] then EmptySentence
    else
      var s := OpenSentence(layout, lines[..|lines| - 1]);
      var line := lines[|lines| - 1];
      if IsBlank(line) then EmptySentence
      else if !WordLine(layout, line) then s
      else
        var f := Fields(line);
        Sentence(s.relations + [Relation(DigitsValue(f[layout.idField]), ParseInt(f[layout.headField]).value)],
                 s.tokens + [f[layout.orthField]], s.lemmas + [f[layout.lemmaField]], s.pos + [f[layout.posField]])
  }

  /** A well-formed word line appends its relation, form, lemma and tag to
      the sentence under construction, and its id to `roots` when its head
      is 0; no stored sentence changes. */
  lemma ParseWordLine(layout: Layout, start: Corpus, lines: seq<string>, line: string)
    requires Parse(layout, start, lines).Ok?
    requires WordLine(layout, line)
    ensures Parse(layout, start, lines + [line]).Ok?
    ensures var st, st', f := Parse(layout, start, lines).value, Parse(layout, start, lines + [line]).value, Fields(line);
      var rel := Relation(DigitsValue(f[layout.idField]), ParseInt(f[layout.headField]).value);
      && st'.corpus == st.corpus.(roots := st.corpus.roots + (if rel.head == 0 then [rel.dep] else []))
      && st'.current.relations == st.current.relations + [rel]
      && st'.current.tokens == st.current.tokens + [f[layout.orthField]]
      && st'.current.lemmas == st.current.lemmas + [f[layout.lemmaField]]
      && st'.current.pos == st.current.pos + [f[layout.posField]]
  {
    ParseWordStep(layout, start, lines, line);
  }

  /** The word a well-formed word line holds, read from its columns. */
  function LineWord(layout: Layout, line: string): (w: LineKind)
    requires WordLine(layout, line)
    ensures Classify(layout, line) == Ok(w)
  {
    var f := Fields(line);
    Word(Relation(DigitsValue(f[layout.idField]), ParseInt(f[layout.headField]).value),
         f[layout.orthField], f[layout.lemmaField], f[layout.posField])
  }

  lemma ParseWordStep(layout: Layout, start: Corpus, lines: seq<string>, line: string)
    requires Parse(layout, start, lines).Ok?
    requires WordLine(layout, line)
    ensures Parse(layout, start, lines + [line]) == Ok(Apply(Parse(layout, start, lines).value, LineWord(layout, line)))
  {
    ParseSnoc(layout, start, lines, line);
  }

  /** The sentence under construction is exactly the words of the word lines
      read since the last blank line: one entry per such line. */
  lemma {:induction false} ParseReadsWords(layout: Layout, start: Corpus, lines: seq<string>)
    requires Parse(layout, start, lines).Ok?
    ensures Parse(layout, start, lines).value.current == OpenSentence(layout, lines)
    ensures |Parse(layout, start, lines).value.current.tokens| == WordLinesSinceBlank(layout, lines)
    decreases |lines|
  {
    if lines != [] {
      var p, line := lines[..|lines| - 1], lines[|lines| - 1];
      assert p + [line] == lines;
      ParseSnoc(layout, start, p, line);
      ParseReadsWords(layout, start, p);
      if WordLine(layout, line) {
        ParseWordLine(layout, start, p, line);
      }
    }
  }

  /** A blank line stores the words read since the previous one as one more
      sentence of every field, and starts an empty sentence. */
  lemma ParseBlankLine(layout: Layout, start: Corpus, lines: seq<string>)
    requires Parse(layout, start, lines).Ok?
    ensures var c, s := Parse(layout, start, lines).value.corpus, OpenSentence(layout, lines);
      Parse(layout, start, lines + ["\n"]) ==
        Ok(ParseState(Corpus(c.tokens + [s.tokens], c.lemmas + [s.lemmas], c.pos + [s.pos],
                             c.relations + [s.relations], c.roots), EmptySentence))
  {
    ParseSnoc(layout, start, lines, "\n");
    ParseReadsWords(layout, start, lines);
  }

  /** A skipped line (a comment, or a word line whose ID is not all digits)
      leaves the result unchanged wherever it appears. */
  lemma {:induction false} SkippedLineIsIgnored(layout: Layout, start: Corpus, before: seq<string>, line: string, after: seq<string>)
    requires Skipped(layout, line)
    ensures Parse(layout, start, before + [line] + after) == Parse(layout, start, before + after)
    decreases |after|
  {
    assert Classify(layout, line) == Ok(Ignored);
    if after == [] {
      ParseSnoc(layout, start, before, line);
      assert before + [line] + after == before + [line];
      assert before + after == before;
    } else {
      var a := after[..|after| - 1];
      var last := after[|after| - 1];
      SkippedLineIsIgnored(layout, start, before, line, a);
      ParseSnoc(layout, start, before + [line] + a, last);
      ParseSnoc(layout, start, before + a, last);
      assert before + [line] + after == (before + [line] + a) + [last];
      assert before + after == (before + a) + [last];
    }
  }

  /** The words of a list of sentences, in order. */
  function Flatten(sentences: seq<seq<Relation>>): seq<Relation>
    decreases |sentences|
  {
    if sentences == [] then []
    else Flatten(sentences[..|sentences| - 1]) + sentences[|sentences| - 1]
  }

  /** The ids of the words whose head is 0, in order. */
  function RootIds(words: seq<Relation>): seq<nat>
    decreases |words|
  {
    if words == [] then []
    else RootIds(words[..|words| - 1]) + (if words[|words| - 1].head == 0 then [words[|words| - 1].dep] else [])
  }

  lemma {:induction false} RootIdsAppend(a: seq<Relation>, b: seq<Relation>)
    ensures RootIds(a + b) == RootIds(a) + RootIds(b)
    decreases |b|
  {
    if b == [] {
      assert a + b == a;
    } else {
      var b' := b[..|b| - 1];
      RootIdsAppend(a, b');
      assert (a + b)[..|a + b| - 1] == a + b';
    }
  }

  /** What `roots` holds relative to the words read since `start`. */
  predicate RootsCollected(start: Corpus, st: ParseState) {
    && |start.relations| <= |st.corpus.relations|
    && st.corpus.roots == start.roots
         + RootIds(Flatten(st.corpus.relations[|start.relations|..]) + st.current.relations)
  }

  lemma {:induction false} FlattenSnoc(done: seq<seq<Relation>>, last: seq<Relation>)
    ensures Flatten(done + [last]) == Flatten(done) + last
  {
    assert (done + [last])[..|done|] == done;
  }

  /** Each classified line keeps `roots` in step with the words read. */
  lemma ApplyCollectsRoots(start: Corpus, st: ParseState, kind: LineKind)
    requires RootsCollected(start, st)
    ensures RootsCollected(start, Apply(st, kind))
  {
    match kind
    case Boundary => BoundaryCollectsRoots(start, st);
    case Ignored =>
    case Word(w, form, base, tag) => WordCollectsRoots(start, st, w, form, base, tag);
  }

  lemma BoundaryCollectsRoots(start: Corpus, st: ParseState)
    requires RootsCollected(start, st)
    ensures RootsCollected(start, Apply(st, Boundary))
  {
    var k := |start.relations|;
    var st' := Apply(st, Boundary);
    var done := st.corpus.relations[k..];
    assert st'.corpus.relations[k..] == done + [st.current.relations];
    assert st'.corpus.roots == st.corpus.roots && st'.current.relations == [];
    FlattenSnoc(done, st.current.relations);
    assert Flatten(st'.corpus.relations[k..]) + st'.current.relations
      == Flatten(done) + st.current.relations;
  }

  lemma WordCollectsRoots(start: Corpus, st: ParseState, w: Relation, form: string, base: string, tag: string)
    requires RootsCollected(start, st)
    ensures RootsCollected(start, Apply(st, Word(w, form, base, tag)))
  {
    var k := |start.relations|;
    var st' := Apply(st, Word(w, form, base, tag));
    var done := st.corpus.relations[k..];
    var ws := st.current.relations + [w];
    assert st'.corpus.relations == st.corpus.relations && st'.current.relations == ws;
    RootIdsAppend(Flatten(done), ws);
    RootIdsAppend(Flatten(done), st.current.relations);
    assert ws[..|ws| - 1] == st.current.relations;
  }

  /** `roots` holds the id of every word with head 0 read so far, across
      sentence boundaries, including the words of a last sentence that no
      blank line closes (and which therefore never reaches `tokens`). */
  lemma {:induction false} ParseCollectsRoots(layout: Layout, start: Corpus, lines: seq<string>)
    requires Parse(layout, start, lines).Ok?
    ensures var st := Parse(layout, start, lines).value;
      && |start.relations| <= |st.corpus.relations|
      && st.corpus.roots == start.roots
           + RootIds(Flatten(st.corpus.relations[|start.relations|..]) + st.current.relations)
    decreases |lines|
  {
    if lines == [] {
      var st := Parse(layout, start, lines).value;
      assert st.corpus.relations[|start.relations|..] == [];
      assert Flatten([]) + [] == [];
    } else {
      var p, line := lines[..|lines| - 1], lines[|lines| - 1];
      assert Parse(layout, start, p).Ok? && Classify(layout, line).Ok?;
      ParseCollectsRoots(layout, start, p);
      var st, kind := Parse(layout, start, p).value, Classify(layout, line).value;
      assert Parse(layout, start, lines) == Ok(Apply(st, kind));
      ApplyCollectsRoots(start, st, kind);
    }
  }
}
