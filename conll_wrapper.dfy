/**
 * The `ConllWrapper` object: the corpus lists it owns, the reader that fills
 * them line by line, the alignment pass that drops the sentences it cannot
 * use, and the index removal that keeps the lists in lock-step.
 */
module Wrapper {
  import opened Wrappers
  import opened Strings
  import opened IndexFilter
  import opened Conllu
  import opened Alignment

  /** The corpus after `remove_indices(rm)`: every non-empty field filtered by
      position, `roots` included (by sentence position, although it holds one
      entry per root word). */
  function RemoveFrom(c: Corpus, rm: seq<nat>): (r: Corpus)
    ensures |r.tokens| <= |c.tokens| && |r.roots| <= |c.roots|
    ensures |c.tokens| == |c.lemmas| == |c.pos| == |c.relations| ==>
              |r.tokens| == |r.lemmas| == |r.pos| == |r.relations|
  {
    FilterIndicesSpec(c.tokens, rm);
    FilterIndicesSpec(c.lemmas, rm);
    FilterIndicesSpec(c.pos, rm);
    FilterIndicesSpec(c.relations, rm);
    Corpus(FilterIndices(c.tokens, rm), FilterIndices(c.lemmas, rm), FilterIndices(c.pos, rm),
           FilterIndices(c.relations, rm), FilterIndices(c.roots, rm))
  }

  /** Removing the same indices from every field keeps the corpus parallel:
      the `k`-th remaining sentence of each field is the original sentence at
      the `k`-th index that `rm` does not list; empty fields stay empty. */
  lemma RemoveKeepsParallel(c: Corpus, rm: seq<nat>)
    requires Parallel(c)
    ensures Parallel(RemoveFrom(c, rm))
    ensures var r, kept := RemoveFrom(c, rm), KeptIndices(|c.tokens|, rm);
      && |r.tokens| == |kept|
      && forall k :: 0 <= k < |kept| ==>
           && kept[k] !in rm
           && r.tokens[k] == c.tokens[kept[k]] && r.lemmas[k] == c.lemmas[kept[k]]
           && r.pos[k] == c.pos[kept[k]] && r.relations[k] == c.relations[kept[k]]
    ensures c.roots == [] ==> RemoveFrom(c, rm).roots == []
  {
    var r := RemoveFrom(c, rm);
    KeptIndicesSpec(|c.tokens|, rm);
    FilterIndicesSpec(c.tokens, rm);
    FilterIndicesSpec(c.lemmas, rm);
    FilterIndicesSpec(c.pos, rm);
    FilterIndicesSpec(c.relations, rm);
    if c.roots == [] {
      assert r.roots == [];
    }
  }

  /** The first loop of `training_examples`: the joined-sentence wordpieces of
      every sentence, and the sentences rejected for a limit. */
  method LimitPass(limits: Limits, tokenizer: Tokenizer, sents: seq<seq<string>>)
    returns (pieces: seq<seq<string>>, indicesToRm: seq<nat>)
    ensures |pieces| == |sents|
    ensures forall j :: 0 <= j < |sents| ==> pieces[j] == SentenceWordpieces(tokenizer, sents[j])
    ensures indicesToRm == LimitRejected(limits, tokenizer, sents)
  {
    pieces, indicesToRm := [], [];
    for idx := 0 to |sents|
      invariant |pieces| == idx
      invariant forall j :: 0 <= j < idx ==> pieces[j] == SentenceWordpieces(tokenizer, sents[j])
      invariant indicesToRm == LimitRejected(limits, tokenizer, sents[..idx])
    {
      var sentTokens := sents[idx];
      var sentWordpieces := [Cls] + tokenizer.tokenize(Join(sentTokens, " ")) + [Sep];
      pieces := pieces + [sentWordpieces];
      assert sents[..idx + 1][..idx] == sents[..idx];
      if |sentTokens| >= limits.maxTokens {
        indicesToRm := indicesToRm + [idx];
      } else if |sentWordpieces| >= limits.maxWordpieces {
        indicesToRm := indicesToRm + [idx];
      }
    }
    assert sents[..|sents|] == sents;
  }

  /** The segment map of one sentence: a `size`-entry array of -1 into which
      each word, re-tokenized on its own, writes its index over as many
      positions as it has pieces, from position 1 on (writes past the end
      are dropped, as NumPy clips the slice). Returns the map, the final
      wordpiece pointer and the final segment id. */
  method FillSegments(size: nat, tokenizer: Tokenizer, sentTokens: seq<string>)
    returns (sentSegments: seq<int>, wordpiecePointer: nat, segmentId: nat)
    ensures sentSegments == SegmentMap(size, PieceCounts(tokenizer, sentTokens))
    ensures wordpiecePointer == 1 + Sum(PieceCounts(tokenizer, sentTokens))
    ensures segmentId == |sentTokens|
  {
    var a := new int[size](_ => -1);
    ghost var cs := PieceCounts(tokenizer, sentTokens);
    assert a[..] == SegmentMap(size, cs[..0]);
    segmentId, wordpiecePointer := 0, 1;
    for w := 0 to |sentTokens|
      invariant segmentId == w
      invariant wordpiecePointer == 1 + Sum(cs[..w])
      invariant a[..] == SegmentMap(size, cs[..w])
    {
      var piecesPerToken := |tokenizer.tokenize(sentTokens[w])|;
      var end := if wordpiecePointer + piecesPerToken <= size then wordpiecePointer + piecesPerToken else size;
      forall j | wordpiecePointer <= j < end {
        a[j] := segmentId;
      }
      forall j | 0 <= j < size
        ensures a[j] == SegmentAt(cs[..w + 1], j)
      {
        SegmentAtStep(cs, w, j);
      }
      SumPrefixStep(cs, w);
      wordpiecePointer := wordpiecePointer + piecesPerToken;
      segmentId := segmentId + 1;
    }
    assert cs[..|sentTokens|] == cs;
    sentSegments := a[..];
  }

  /** The body of the second loop of `training_examples` for one sentence
      that passed the limits: the sentence is aligned when its per-word piece
      counts add up to its joined tokenization, and then yields its ids, its
      segment map and its word count. */
  method AlignSentence(limits: Limits, tokenizer: Tokenizer, sentTokens: seq<string>, sentWordpieces: seq<string>)
    returns (aligned: bool, ids: seq<int>, sentSegments: seq<int>, segmentId: nat)
    requires sentWordpieces == SentenceWordpieces(tokenizer, sentTokens)
    requires LimitCheck(limits, tokenizer, sentTokens).None?
    ensures aligned <==> Verdict(limits, tokenizer, sentTokens).None?
    ensures aligned ==>
      && ids == GetBertIds(limits.maxWordpieces, tokenizer, sentWordpieces)
      && sentSegments == SegmentMap(limits.maxWordpieces, PieceCounts(tokenizer, sentTokens))
      && segmentId == |sentTokens|
  {
    var wordpiecePointer;
    sentSegments, wordpiecePointer, segmentId := FillSegments(limits.maxWordpieces, tokenizer, sentTokens);
    aligned := wordpiecePointer + 1 == |sentWordpieces|;
    ids := if aligned then GetBertIds(limits.maxWordpieces, tokenizer, sentWordpieces) else [];
  }

  /** One iteration of the second loop of `training_examples`, at sentence
      `sentIdx`: it extends the rejection list and the rows exactly as the
      `MismatchRejected` and `ExamplesOf` extend them by one sentence. */
  method AlignIteration(limits: Limits, tokenizer: Tokenizer, sents: seq<seq<string>>,
                        sentWordpieces: seq<string>, limitRm: seq<nat>, sentIdx: nat,
                        indicesToRm: seq<nat>, bertIds: seq<seq<int>>, segs: seq<seq<int>>, maxSeg: seq<int>)
    returns (indicesToRm': seq<nat>, bertIds': seq<seq<int>>, segs': seq<seq<int>>, maxSeg': seq<int>)
    requires sentIdx < |sents|
    requires sentWordpieces == SentenceWordpieces(tokenizer, sents[sentIdx])
    requires limitRm == LimitRejected(limits, tokenizer, sents)
    requires indicesToRm == limitRm + MismatchRejected(limits, tokenizer, sents[..sentIdx])
    requires Examples(bertIds, segs, maxSeg) == ExamplesOf(limits, tokenizer, sents[..sentIdx])
    ensures indicesToRm' == limitRm + MismatchRejected(limits, tokenizer, sents[..sentIdx + 1])
    ensures Examples(bertIds', segs', maxSeg') == ExamplesOf(limits, tokenizer, sents[..sentIdx + 1])
  {
    AlignStep(limits, tokenizer, sents, sentIdx);
    indicesToRm', bertIds', segs', maxSeg' := indicesToRm, bertIds, segs, maxSeg;
    if sentIdx !in indicesToRm {
      var aligned, ids, sentSegments, segmentId := AlignSentence(limits, tokenizer, sents[sentIdx], sentWordpieces);
      if !aligned {
        indicesToRm' := indicesToRm + [sentIdx];
      } else {
        segs' := segs + [sentSegments];
        bertIds' := bertIds + [ids];
        maxSeg' := maxSeg + [segmentId];
      }
    }
  }

  /** The second loop of `training_examples`: skips the limit-rejected
      sentences, rejects those whose piece counts do not add up, and builds a
      row for every other one. */
  method AlignPass(limits: Limits, tokenizer: Tokenizer, sents: seq<seq<string>>,
                   pieces: seq<seq<string>>, limitRm: seq<nat>)
    returns (indicesToRm: seq<nat>, bertIds: seq<seq<int>>, segs: seq<seq<int>>, maxSeg: seq<int>)
    requires |pieces| == |sents|
    requires forall j :: 0 <= j < |sents| ==> pieces[j] == SentenceWordpieces(tokenizer, sents[j])
    requires limitRm == LimitRejected(limits, tokenizer, sents)
    ensures indicesToRm == Rejected(limits, tokenizer, sents)
    ensures Examples(bertIds, segs, maxSeg) == ExamplesOf(limits, tokenizer, sents)
  {
    indicesToRm := limitRm;
    segs, maxSeg, bertIds := [], [], [];
    for sentIdx := 0 to |sents|
      invariant indicesToRm == limitRm + MismatchRejected(limits, tokenizer, sents[..sentIdx])
      invariant Examples(bertIds, segs, maxSeg) == ExamplesOf(limits, tokenizer, sents[..sentIdx])
    {
      indicesToRm, bertIds, segs, maxSeg :=
        AlignIteration(limits, tokenizer, sents, pieces[sentIdx], limitRm, sentIdx,
                       indicesToRm, bertIds, segs, maxSeg);
    }
    assert sents[..|sents|] == sents;
  }

  class ConllWrapper {
    const conlluName: string
    const tokenizer: Tokenizer
    const layout: Layout
    const limits: Limits

    var tokens: seq<seq<string>>
    var lemmas: seq<seq<string>>
    var pos: seq<seq<string>>
    var relations: seq<seq<Relation>>
    var roots: seq<nat>

    // Declared by the constructor and never filled.
    var wordpieces: seq<seq<string>>
    var segments: seq<seq<int>>
    var maxSegment: seq<int>

    /** The five corpus fields as one value. */
    function State(): Corpus
      reads this
    {
      Corpus(tokens, lemmas, pos, relations, roots)
    }

    /** The state `__init__` sets up before reading the file. */
    constructor (conlluName: string, tokenizer: Tokenizer, layout: Layout, limits: Limits)
      ensures this.conlluName == conlluName && this.tokenizer == tokenizer
      ensures this.layout == layout && this.limits == limits
      ensures State() == EmptyCorpus
      ensures wordpieces == [] && segments == [] && maxSegment == []
    {
      this.conlluName := conlluName;
      this.tokenizer := tokenizer;
      this.layout := layout;
      this.limits := limits;
      tokens, lemmas, pos, relations, roots := [], [], [], [], [];
      wordpieces, segments, maxSegment := [], [], [];
    }

    /** `read_conllu` over the lines of the file: on success the fields are
        those of the fold `Parse` (a last sentence without a closing blank
        line is dropped); an exception is returned, and the object is then
        discarded by its creator. */
    method ReadConllu(lines: seq<string>) returns (err: Option<ParseError>)
      modifies this
      ensures err.None? <==> Parse(layout, old(State()), lines).Ok?
      ensures err.Some? ==> Parse(layout, old(State()), lines) == Err(err.value)
      ensures err.None? ==> State() == Parse(layout, old(State()), lines).value.corpus
      ensures err.None? ==> wordpieces == old(wordpieces) && segments == old(segments) && maxSegment == old(maxSegment)
    {
      var sentenceRelations: seq<Relation> := [];
      var sentenceTokens: seq<string> := [];
      var sentenceLemmas: seq<string> := [];
      var sentencePos: seq<string> := [];
      var i := 0;
      err := None;
      while i < |lines|
        invariant 0 <= i <= |lines|
        invariant Parse(layout, old(State()), lines[..i])
          == Ok(ParseState(State(), Sentence(sentenceRelations, sentenceTokens, sentenceLemmas, sentencePos)))
        invariant wordpieces == old(wordpieces) && segments == old(segments) && maxSegment == old(maxSegment)
      {
        var line := lines[i];
        ParseSnoc(layout, old(State()), lines[..i], line);
        assert lines[..i + 1] == lines[..i] + [line];
        var kind := Classify(layout, line);
        if kind.Err? {
          err := Some(kind.error);
          ParseErrorPersists(layout, old(State()), lines, i + 1);
          return;
        }
        match kind.value {
          case Boundary =>
            relations := relations + [sentenceRelations];
            sentenceRelations := [];
            tokens := tokens + [sentenceTokens];
            sentenceTokens := [];
            lemmas := lemmas + [sentenceLemmas];
            sentenceLemmas := [];
            pos := pos + [sentencePos];
            sentencePos := [];
          case Ignored =>
          case Word(relation, form, base, tag) =>
            sentenceRelations := sentenceRelations + [relation];
            if relation.head == 0 {
              roots := roots + [relation.dep];
            }
            sentenceTokens := sentenceTokens + [form];
            sentenceLemmas := sentenceLemmas + [base];
            sentencePos := sentencePos + [tag];
        }
        i := i + 1;
      }
      assert lines[..i] == lines;
    }

    /** `remove_indices`: every non-empty field keeps the entries whose
        position is not listed, in order; nothing else changes. */
    method RemoveIndices(indicesToRm: seq<nat>)
      modifies this
      ensures tokens == FilterIndices(old(tokens), indicesToRm)
      ensures lemmas == FilterIndices(old(lemmas), indicesToRm)
      ensures pos == FilterIndices(old(pos), indicesToRm)
      ensures relations == FilterIndices(old(relations), indicesToRm)
      ensures roots == FilterIndices(old(roots), indicesToRm)
      ensures wordpieces == old(wordpieces) && segments == old(segments) && maxSegment == old(maxSegment)
    {
      if |tokens| > 0 {
        tokens := FilterIndices(tokens, indicesToRm);
      }
      if |lemmas| > 0 {
        lemmas := FilterIndices(lemmas, indicesToRm);
      }
      if |pos| > 0 {
        pos := FilterIndices(pos, indicesToRm);
      }
      if |relations| > 0 {
        relations := FilterIndices(relations, indicesToRm);
      }
      if |roots| > 0 {
        roots := FilterIndices(roots, indicesToRm);
      }
    }

    /** `training_examples`: returns one row of padded ids, segment map and
        segment count per surviving sentence, and removes every rejected
        sentence from the corpus, so that the remaining sentences and the
        rows correspond one to one, in order. */
    method TrainingExamples() returns (bertIds: seq<seq<int>>, segs: seq<seq<int>>, maxSeg: seq<int>)
      modifies this
      ensures Examples(bertIds, segs, maxSeg) == ExamplesOf(limits, tokenizer, old(tokens))
      ensures State() == RemoveFrom(old(State()), Rejected(limits, tokenizer, old(tokens)))
      ensures wordpieces == old(wordpieces) && segments == old(segments) && maxSegment == old(maxSegment)
      ensures |bertIds| == |tokens| && |segs| == |tokens| && |maxSeg| == |tokens|
      ensures forall k :: 0 <= k < |tokens| ==>
                && Verdict(limits, tokenizer, tokens[k]).None?
                && bertIds[k] == GetBertIds(limits.maxWordpieces, tokenizer, SentenceWordpieces(tokenizer, tokens[k]))
                && segs[k] == SegmentMap(limits.maxWordpieces, PieceCounts(tokenizer, tokens[k]))
                && maxSeg[k] == |tokens[k]|
    {
      var sents := tokens;
      var pieces, limitRm := LimitPass(limits, tokenizer, sents);
      var indicesToRm;
      indicesToRm, bertIds, segs, maxSeg := AlignPass(limits, tokenizer, sents, pieces, limitRm);
      RemoveIndices(indicesToRm);
      TrainingExamplesAligned(limits, tokenizer, sents);
    }

    /** `__init__`: reads the file and runs `training_examples`, discarding the
        rows it returns. An exception of the reader is returned instead of an
        object. */
    static method Load(conllFile: string, lines: seq<string>, tokenizer: Tokenizer, layout: Layout, limits: Limits)
      returns (r: Result<ConllWrapper, ParseError>)
      ensures Parse(layout, EmptyCorpus, lines).Err? ==> r == Err(Parse(layout, EmptyCorpus, lines).error)
      ensures Parse(layout, EmptyCorpus, lines).Ok? ==>
        var c := Parse(layout, EmptyCorpus, lines).value.corpus;
        && r.Ok? && fresh(r.value)
        && r.value.conlluName == conllFile && r.value.tokenizer == tokenizer
        && r.value.layout == layout && r.value.limits == limits
        && r.value.State() == RemoveFrom(c, Rejected(limits, tokenizer, c.tokens))
        && r.value.wordpieces == [] && r.value.segments == [] && r.value.maxSegment == []
        && Parallel(r.value.State())
        && forall k :: 0 <= k < |r.value.tokens| ==> Verdict(limits, tokenizer, r.value.tokens[k]).None?
    {
      var w := new ConllWrapper(conllFile, tokenizer, layout, limits);
      var err := w.ReadConllu(lines);
      if err.Some? {
        return Err(err.value);
      }
      ParseKeepsParallel(layout, EmptyCorpus, lines);
      ghost var c := w.State();
      RemoveKeepsParallel(c, Rejected(limits, tokenizer, c.tokens));
      var _, _, _ := w.TrainingExamples();
      r := Ok(w);
    }
  }
}
