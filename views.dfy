/**
 * The read-only properties of `ConllWrapper`: `unlabeled_relations`,
 * `punctuation_mask`, `unlabeled_unordered_relations` and `word_count`, as
 * functions of the fields they read.
 */
module Views {
  import opened Wrappers
  import opened Conllu
  import opened IndexFilter
  import opened Alignment

  /** `{dep: parent for dep, parent in rels}`: every dependent id is a key,
      and when an id occurs more than once its last pair wins. */
  function RelationMap(rels: seq<Relation>): map<nat, int>
    decreases |rels|
  {
    if rels == [] then map[]
    else RelationMap(rels[..|rels| - 1])[rels[|rels| - 1].dep := rels[|rels| - 1].head]
  }

  /** The dict has one key per dependent id; for an id that occurs once, or
      at its last occurrence, the value is that word's head. */
  lemma {:induction false} RelationMapSpec(rels: seq<Relation>)
    ensures RelationMap(rels).Keys == set r | r in rels :: r.dep
    ensures forall i :: 0 <= i < |rels| && (forall j :: i < j < |rels| ==> rels[j].dep != rels[i].dep) ==>
              RelationMap(rels)[rels[i].dep] == rels[i].head
    decreases |rels|
  {
    if rels != [] {
      var n := |rels| - 1;
      RelationMapSpec(rels[..n]);
      assert rels == rels[..n] + [rels[n]];
      assert forall i :: 0 <= i < n ==> rels[..n][i] == rels[i];
    }
  }

  /** `unlabeled_relations`: one dependent-to-head map per sentence. */
  function UnlabeledRelations(relations: seq<seq<Relation>>): (r: seq<map<nat, int>>)
    ensures |r| == |relations|
  {
    seq(|relations|, k requires 0 <= k < |relations| => RelationMap(relations[k]))
  }

  /** In a sentence whose dependent ids are distinct, the map sends each
      dependent to its head. */
  lemma UnlabeledRelationsHeads(relations: seq<seq<Relation>>, k: nat)
    requires k < |relations|
    requires forall i, j :: 0 <= i < j < |relations[k]| ==> relations[k][i].dep != relations[k][j].dep
    ensures forall r :: r in relations[k] ==>
              r.dep in UnlabeledRelations(relations)[k] && UnlabeledRelations(relations)[k][r.dep] == r.head
  {
    var rels := relations[k];
    RelationMapSpec(rels);
    forall r | r in rels
      ensures r.dep in RelationMap(rels) && RelationMap(rels)[r.dep] == r.head
    {
      var i :| 0 <= i < |rels| && rels[i] == r;
    }
  }

  /** `punctuation_mask`: True for every word whose tag is not "PUNCT". */
  function PunctuationMask(pos: seq<seq<string>>): (mask: seq<seq<bool>>)
    ensures |mask| == |pos|
    ensures forall k :: 0 <= k < |pos| ==> |mask[k]| == |pos[k]|
    ensures forall k, j :: 0 <= k < |pos| && 0 <= j < |pos[k]| ==> (mask[k][j] <==> pos[k][j] != "PUNCT")
  {
    seq(|pos|, k requires 0 <= k < |pos| =>
      seq(|pos[k]|, j requires 0 <= j < |pos[k]| => pos[k][j] != "PUNCT"))
  }

  /** Python's `s[i]` position for a list of length `n`: negative indices
      count from the end; anything else out of range is an `IndexError`. */
  function PyIndex(n: nat, i: int): (r: Option<nat>)
    ensures r.Some? <==> 0 - n <= i < n
    ensures r.Some? ==> r.value < n && (r.value == i || r.value == n + i)
  {
    if 0 <= i < n then Some(i)
    else if 0 - n <= i < 0 then Some(n + i)
    else None
  }

  /** Whether `mask[dep - 1]` can be evaluated for every word. */
  predicate MaskIndexable(rels: seq<Relation>, mask: seq<bool>) {
    forall r :: r in rels ==> PyIndex(|mask|, r.dep - 1).Some?
  }

  /** One sentence of `unlabeled_unordered_relations`: the unordered pair of
      every word whose mask entry equals `wanted` and whose head is not 0. */
  function EdgeSet(rels: seq<Relation>, mask: seq<bool>, wanted: bool): Option<set<set<int>>> {
    if !MaskIndexable(rels, mask) then None
    else Some(set r | r in rels && mask[PyIndex(|mask|, r.dep - 1).value] == wanted && r.head != 0
                :: {r.dep as int, r.head})
  }

  /** The per-sentence edge sets: sentences are paired with their masks as
      `zip` does, so only as many as the shorter list; an out-of-range
      `mask[dep - 1]` anywhere raises `IndexError` (`None`). */
  function UnorderedRelations(relations: seq<seq<Relation>>, pos: seq<seq<string>>, wanted: bool)
    : (r: Option<seq<set<set<int>>>>)
    ensures r.Some? ==> |r.value| == if |relations| <= |pos| then |relations| else |pos|
  {
    var n := if |relations| <= |pos| then |relations| else |pos|;
    var mask := PunctuationMask(pos);
    if exists k :: 0 <= k < n && EdgeSet(relations[k], mask[k], wanted).None? then None
    else Some(seq(n, k requires 0 <= k < n => EdgeSet(relations[k], mask[k], wanted).value))
  }

  /** `unlabeled_unordered_relations` as written: it keeps the words whose
      mask entry is False. */
  function UnlabeledUnorderedRelations(relations: seq<seq<Relation>>, pos: seq<seq<string>>)
    : (r: Option<seq<set<set<int>>>>)
    ensures r.Some? ==> |r.value| == if |relations| <= |pos| then |relations| else |pos|
    ensures r.Some? <==> NonPunctuationUnorderedRelations(relations, pos).Some?
  {
    UnorderedRelations(relations, pos, false)
  }

  /** `unlabeled_unordered_relations` without the negation: it keeps the
      words whose mask entry is True, that is, the non-punctuation ones. */
  function NonPunctuationUnorderedRelations(relations: seq<seq<Relation>>, pos: seq<seq<string>>)
    : (r: Option<seq<set<set<int>>>>)
    ensures r.Some? ==> |r.value| == if |relations| <= |pos| then |relations| else |pos|
  {
    UnorderedRelations(relations, pos, true)
  }

  /** Every word's id names a word of its sentence. */
  predicate DepsInRange(relations: seq<seq<Relation>>, pos: seq<seq<string>>) {
    forall i :: 0 <= i < |relations| && i < |pos| ==>
      forall r :: r in relations[i] ==> 1 <= r.dep <= |pos[i]|
  }

  /** With ids in range no `IndexError` is raised, and sentence `k` holds
      exactly the pairs of the words with a head other than 0 whose tag is
      "PUNCT" (for `wanted == false`) or is not (for `wanted == true`). */
  lemma {:induction false} MaskedEdges(relations: seq<seq<Relation>>, pos: seq<seq<string>>, wanted: bool, k: nat, e: set<int>)
    requires k < |relations| && k < |pos|
    requires DepsInRange(relations, pos)
    ensures UnorderedRelations(relations, pos, wanted).Some?
    ensures e in UnorderedRelations(relations, pos, wanted).value[k] <==>
              exists r :: r in relations[k] && r.head != 0 && (pos[k][r.dep - 1] != "PUNCT") == wanted
                          && e == {r.dep as int, r.head}
  {
    var n := if |relations| <= |pos| then |relations| else |pos|;
    var mask := PunctuationMask(pos);
    forall i | 0 <= i < n
      ensures EdgeSet(relations[i], mask[i], wanted).Some?
    {
      assert MaskIndexable(relations[i], mask[i]);
    }
    var edges := EdgeSet(relations[k], mask[k], wanted).value;
    assert UnorderedRelations(relations, pos, wanted).value[k] == edges;
    if e in edges {
      var r :| r in relations[k] && mask[k][PyIndex(|mask[k]|, r.dep - 1).value] == wanted && r.head != 0
               && e == {r.dep as int, r.head};
      assert (pos[k][r.dep - 1] != "PUNCT") == wanted;
    }
    if exists r :: r in relations[k] && r.head != 0 && (pos[k][r.dep - 1] != "PUNCT") == wanted
                   && e == {r.dep as int, r.head} {
      var r :| r in relations[k] && r.head != 0 && (pos[k][r.dep - 1] != "PUNCT") == wanted
               && e == {r.dep as int, r.head};
      assert mask[k][r.dep - 1] == wanted;
      assert e in edges;
    }
  }

  /** As written, the edges kept are exactly those whose dependent IS tagged
      "PUNCT" (the mask is True for non-punctuation and the filter negates
      it), with a head other than 0. */
  lemma {:induction false} PunctuationEdgesOnly(relations: seq<seq<Relation>>, pos: seq<seq<string>>, k: nat, e: set<int>)
    requires k < |relations| && k < |pos|
    requires DepsInRange(relations, pos)
    ensures UnlabeledUnorderedRelations(relations, pos).Some?
    ensures e in UnlabeledUnorderedRelations(relations, pos).value[k] <==>
              exists r :: r in relations[k] && r.head != 0 && pos[k][r.dep - 1] == "PUNCT"
                          && e == {r.dep as int, r.head}
  {
    MaskedEdges(relations, pos, false, k, e);
  }

  /** Without the negation, the edges kept are exactly those whose dependent
      is not tagged "PUNCT", with a head other than 0. */
  lemma {:induction false} NonPunctuationEdges(relations: seq<seq<Relation>>, pos: seq<seq<string>>, k: nat, e: set<int>)
    requires k < |relations| && k < |pos|
    requires DepsInRange(relations, pos)
    ensures NonPunctuationUnorderedRelations(relations, pos).Some?
    ensures e in NonPunctuationUnorderedRelations(relations, pos).value[k] <==>
              exists r :: r in relations[k] && r.head != 0 && pos[k][r.dep - 1] != "PUNCT"
                          && e == {r.dep as int, r.head}
  {
    MaskedEdges(relations, pos, true, k, e);
  }

  /** "I ran .", with "I" and "." attached to "ran". */
  const ExampleRelations: seq<seq<Relation>> := [[Relation(1, 2), Relation(2, 0), Relation(3, 2)]]
  const ExamplePos: seq<seq<string>> := [["PRON", "VERB", "PUNCT"]]

  /** As written, the view of "I ran ." holds the edge of the full stop and
      not the edge of the pronoun. */
  lemma PunctuationFilterInverted()
    ensures UnlabeledUnorderedRelations(ExampleRelations, ExamplePos).Some?
    ensures {3, 2} in UnlabeledUnorderedRelations(ExampleRelations, ExamplePos).value[0]
    ensures {1, 2} !in UnlabeledUnorderedRelations(ExampleRelations, ExamplePos).value[0]
  {
    var rels, pos := ExampleRelations, ExamplePos;
    assert DepsInRange(rels, pos);
    var r3 := Relation(3, 2);
    assert r3 in rels[0] && pos[0][r3.dep - 1] == "PUNCT" && {3, 2} == {r3.dep as int, r3.head};
    PunctuationEdgesOnly(rels, pos, 0, {3, 2});
    assert forall r: Relation :: r in rels[0] && pos[0][r.dep - 1] == "PUNCT" ==> r == r3;
    assert 1 !in {r3.dep as int, r3.head};
    PunctuationEdgesOnly(rels, pos, 0, {1, 2});
  }

  /** Without the negation, the view of "I ran ." holds the edge of the
      pronoun and not the edge of the full stop. */
  lemma NonPunctuationFilterExample()
    ensures NonPunctuationUnorderedRelations(ExampleRelations, ExamplePos).Some?
    ensures {1, 2} in NonPunctuationUnorderedRelations(ExampleRelations, ExamplePos).value[0]
    ensures {3, 2} !in NonPunctuationUnorderedRelations(ExampleRelations, ExamplePos).value[0]
  {
    var rels, pos := ExampleRelations, ExamplePos;
    assert DepsInRange(rels, pos);
    var r1 := Relation(1, 2);
    assert r1 in rels[0] && pos[0][r1.dep - 1] == "PRON" && {1, 2} == {r1.dep as int, r1.head};
    NonPunctuationEdges(rels, pos, 0, {1, 2});
    assert forall r: Relation :: r in rels[0] && r.head != 0 && pos[0][r.dep - 1] != "PUNCT" ==> r == r1;
    assert 3 !in {r1.dep as int, r1.head};
    NonPunctuationEdges(rels, pos, 0, {3, 2});
  }

  /** `word_count`: the number of relations of each sentence. */
  function WordCount(relations: seq<seq<Relation>>): (counts: seq<nat>)
    ensures |counts| == |relations|
  {
    seq(|relations|, k requires 0 <= k < |relations| => |relations[k]|)
  }

  /** In a parallel corpus the word count of a sentence is its token count;
      after `training_examples` it is also the `max_segment` entry of the
      sentence's row. */
  lemma WordCountIsMaxSegment(lim: Limits, tok: Tokenizer, c: Corpus)
    requires Parallel(c)
    ensures var rm := Rejected(lim, tok, c.tokens);
      var counts, ex := WordCount(FilterIndices(c.relations, rm)), ExamplesOf(lim, tok, c.tokens);
      && |counts| == |ex.maxSegment|
      && forall k :: 0 <= k < |counts| ==> counts[k] == ex.maxSegment[k]
  {
    var rm := Rejected(lim, tok, c.tokens);
    TrainingExamplesAligned(lim, tok, c.tokens);
    FilterIndicesSpec(c.tokens, rm);
    FilterIndicesSpec(c.relations, rm);
  }
}
