/**
 * The wordpiece-to-word alignment of `ConllWrapper.training_examples` and
 * `get_bert_ids`, as functions of the corpus' token lists.
 */
module Alignment {
  import opened Wrappers
  import opened Strings
  import opened IndexFilter

  /** The wordpiece tokenizer: `tokenize` (with `add_special_tokens=False`)
      and the vocabulary lookup behind `convert_tokens_to_ids`. */
  datatype Tokenizer = Tokenizer(tokenize: string -> seq<string>, vocab: string -> int)

  /** `constants.MAX_TOKENS` and `constants.MAX_WORDPIECES`. */
  datatype Limits = Limits(maxTokens: nat, maxWordpieces: nat)

  /** Why a sentence is left out of the training examples. */
  datatype Rejection = TooManyTokens | TooManyWordpieces | AlignmentMismatch

  /** One row per surviving sentence: padded vocabulary ids, the segment map,
      and the recorded segment count. */
  datatype Examples = Examples(bertIds: seq<seq<int>>, segments: seq<seq<int>>, maxSegment: seq<int>)

  const Cls: string := "[CLS]"
  const Sep: string := "[SEP]"

  /** `convert_tokens_to_ids`: one vocabulary id per piece. */
  function ConvertTokensToIds(tok: Tokenizer, pieces: seq<string>): (ids: seq<int>)
    ensures |ids| == |pieces|
  {
    seq(|pieces|, i requires 0 <= i < |pieces| => tok.vocab(pieces[i]))
  }

  /** `[0] * n`, which is empty for a negative `n`. */
  function Zeros(n: int): (z: seq<int>)
    ensures |z| == if n <= 0 then 0 else n
    ensures forall j :: 0 <= j < |z| ==> z[j] == 0
  {
    if n <= 0 then [] else seq(n, _ => 0)
  }

  /** `get_bert_ids`: the ids of the pieces, right-padded with 0 up to `size`;
      a list already at least `size` long is not padded (nor cut). */
  function GetBertIds(size: nat, tok: Tokenizer, pieces: seq<string>): (ids: seq<int>)
    ensures |ids| == if |pieces| <= size then size else |pieces|
    ensures ids[..|pieces|] == ConvertTokensToIds(tok, pieces)
    ensures forall j :: |pieces| <= j < |ids| ==> ids[j] == 0
  {
    ConvertTokensToIds(tok, pieces) + Zeros(size - |pieces|)
  }

  /** `["[CLS]"] + tokenize(' '.join(sent)) + ["[SEP]"]`. */
  function SentenceWordpieces(tok: Tokenizer, sent: seq<string>): (wp: seq<string>)
    ensures |wp| == |tok.tokenize(Join(sent, " "))| + 2
  {
    [Cls] + tok.tokenize(Join(sent, " ")) + [Sep]
  }

  /** The number of pieces of each word tokenized on its own. */
  function PieceCounts(tok: Tokenizer, sent: seq<string>): (cs: seq<nat>)
    ensures |cs| == |sent|
  {
    seq(|sent|, w requires 0 <= w < |sent| => |tok.tokenize(sent[w])|)
  }

  function Sum(cs: seq<nat>): nat
    decreases |cs|
  {
    if cs == [] then 0 else Sum(cs[..|cs| - 1]) + cs[|cs| - 1]
  }

  lemma SumPrefixStep(cs: seq<nat>, w: nat)
    requires w < |cs|
    ensures Sum(cs[..w + 1]) == Sum(cs[..w]) + cs[w]
  {
    assert cs[..w + 1][..w] == cs[..w];
  }

  /** Prefix sums never decrease. */
  lemma {:induction false} SumPrefixMonotone(cs: seq<nat>, a: nat, b: nat)
    requires a <= b <= |cs|
    ensures Sum(cs[..a]) <= Sum(cs[..b])
    decreases b - a
  {
    if a < b {
      SumPrefixMonotone(cs, a, b - 1);
      SumPrefixStep(cs, b - 1);
    }
  }

  /** The limit checks of the first loop: too many words first, else too many
      wordpieces. */
  function LimitCheck(lim: Limits, tok: Tokenizer, sent: seq<string>): (v: Option<Rejection>)
    ensures v.Some? <==> |sent| >= lim.maxTokens || |SentenceWordpieces(tok, sent)| >= lim.maxWordpieces
    ensures v != Some(AlignmentMismatch)
  {
    if |sent| >= lim.maxTokens then Some(TooManyTokens)
    else if |SentenceWordpieces(tok, sent)| >= lim.maxWordpieces then Some(TooManyWordpieces)
    else None
  }

  /** The fate of one sentence: a limit rejection, else a rejection when the
      per-word piece counts (after the leading "[CLS]", before the trailing
      "[SEP]") do not add up to the joined tokenization, else none. Each
      sentence gets at most one reason, and the three reasons are exactly
      the three conditions. */
  function Verdict(lim: Limits, tok: Tokenizer, sent: seq<string>): (v: Option<Rejection>)
    ensures v == Some(TooManyTokens) <==> |sent| >= lim.maxTokens
    ensures v == Some(TooManyWordpieces) <==>
      |sent| < lim.maxTokens && |SentenceWordpieces(tok, sent)| >= lim.maxWordpieces
    ensures v == Some(AlignmentMismatch) <==>
      && |sent| < lim.maxTokens && |SentenceWordpieces(tok, sent)| < lim.maxWordpieces
      && 1 + Sum(PieceCounts(tok, sent)) + 1 != |SentenceWordpieces(tok, sent)|
    ensures v == None <==>
      && |sent| < lim.maxTokens && |SentenceWordpieces(tok, sent)| < lim.maxWordpieces
      && 1 + Sum(PieceCounts(tok, sent)) + 1 == |SentenceWordpieces(tok, sent)|
  {
    match LimitCheck(lim, tok, sent)
    case Some(r) => Some(r)
    case None =>
      if 1 + Sum(PieceCounts(tok, sent)) + 1 != |SentenceWordpieces(tok, sent)| then Some(AlignmentMismatch)
      else None
  }

  /** The word that wordpiece `q` (counted after "[CLS]") belongs to. */
  function Owner(cs: seq<nat>, q: nat): (w: nat)
    requires q < Sum(cs)
    ensures w < |cs| && Sum(cs[..w]) <= q < Sum(cs[..w]) + cs[w]
    decreases |cs|
  {
    var n := |cs| - 1;
    assert cs[..n + 1] == cs;
    SumPrefixStep(cs, n);
    if q >= Sum(cs[..n]) then n
    else
      var w := Owner(cs[..n], q);
      assert cs[..n][..w] == cs[..w];
      w
  }

  /** The owner is the only word whose interval holds `q`. */
  lemma OwnerUnique(cs: seq<nat>, w: nat, q: nat)
    requires w < |cs| && Sum(cs[..w]) <= q < Sum(cs[..w]) + cs[w]
    ensures q < Sum(cs) && Owner(cs, q) == w
  {
    SumPrefixStep(cs, w);
    SumPrefixMonotone(cs, w + 1, |cs|);
    assert cs[..|cs|] == cs;
    var v := Owner(cs, q);
    SumPrefixStep(cs, v);
    if v < w {
      SumPrefixMonotone(cs, v + 1, w);
    } else if w < v {
      SumPrefixMonotone(cs, w + 1, v);
    }
  }

  /** Entry `j` of the segment map after the words with counts `cs` are laid
      out from position 1: the owning word, or -1. */
  function SegmentAt(cs: seq<nat>, j: nat): int {
    if 1 <= j < 1 + Sum(cs) then Owner(cs, j - 1) else -1
  }

  /** The `sent_segments` array of `size` entries. */
  function SegmentMap(size: nat, cs: seq<nat>): (m: seq<int>)
    ensures |m| == size
  {
    seq(size, j requires 0 <= j < size => SegmentAt(cs, j))
  }

  /** Laying out word `k` writes `k` over its `cs[k]` positions and leaves
      every other entry as it was. */
  lemma SegmentAtStep(cs: seq<nat>, k: nat, j: nat)
    requires k < |cs|
    ensures var p := 1 + Sum(cs[..k]);
      SegmentAt(cs[..k + 1], j) == if p <= j < p + cs[k] then k else SegmentAt(cs[..k], j)
  {
    var c := cs[..k + 1];
    assert c[..k] == cs[..k];
    SumPrefixStep(cs, k);
    assert c[..|c| - 1] == cs[..k];
  }

  /** Entry 0 of a segment map (the "[CLS]" position) and every entry from
      `1 + Sum(cs)` on are -1; the entries in between are not. */
  lemma SegmentMapSentinels(size: nat, cs: seq<nat>)
    ensures size > 0 ==> SegmentMap(size, cs)[0] == -1
    ensures forall j :: 0 <= j < size ==>
              (SegmentMap(size, cs)[j] == -1 <==> j == 0 || j >= 1 + Sum(cs))
  {
  }

  /** Word `w` fills exactly the `cs[w]` positions from `1 + Sum(cs[..w])`. */
  lemma SegmentMapWord(size: nat, cs: seq<nat>, w: nat)
    requires w < |cs|
    ensures forall j :: 0 <= j < size ==>
              (SegmentMap(size, cs)[j] == w <==> 1 + Sum(cs[..w]) <= j < 1 + Sum(cs[..w]) + cs[w])
  {
    var m := SegmentMap(size, cs);
    forall j | 0 <= j < size
      ensures m[j] == w <==> 1 + Sum(cs[..w]) <= j < 1 + Sum(cs[..w]) + cs[w]
    {
      assert m[j] == SegmentAt(cs, j);
      if 1 + Sum(cs[..w]) <= j < 1 + Sum(cs[..w]) + cs[w] {
        OwnerUnique(cs, w, j - 1);
      }
    }
  }

  /** Over the filled positions the segment ids never decrease. */
  lemma SegmentMapMonotone(size: nat, cs: seq<nat>)
    ensures forall i, j :: 1 <= i <= j < size && j < 1 + Sum(cs) ==>
              SegmentMap(size, cs)[i] <= SegmentMap(size, cs)[j]
  {
    var m := SegmentMap(size, cs);
    forall i, j | 1 <= i <= j < size && j < 1 + Sum(cs)
      ensures m[i] <= m[j]
    {
      assert m[i] == Owner(cs, i - 1) && m[j] == Owner(cs, j - 1);
      var u, v := Owner(cs, i - 1), Owner(cs, j - 1);
      if v < u {
        SumPrefixStep(cs, v);
        SumPrefixMonotone(cs, v + 1, u);
      }
    }
  }

  /** The indices the first loop of `training_examples` appends to
      `indices_to_rm`: the limit rejections, in order. */
  function LimitRejected(lim: Limits, tok: Tokenizer, sents: seq<seq<string>>): seq<nat>
    decreases |sents|
  {
    if sents == [] then []
    else
      var n := |sents| - 1;
      LimitRejected(lim, tok, sents[..n]) + (if LimitCheck(lim, tok, sents[n]).Some? then [n] else [])
  }

  /** Per sentence: is it one of the sentences that fail a limit? */
  function LimitFlags(lim: Limits, tok: Tokenizer, sents: seq<seq<string>>): (f: seq<bool>)
    ensures |f| == |sents|
  {
    seq(|sents|, i requires 0 <= i < |sents| => LimitCheck(lim, tok, sents[i]).Some?)
  }

  lemma {:induction false} LimitRejectedWhere(lim: Limits, tok: Tokenizer, sents: seq<seq<string>>)
    ensures LimitRejected(lim, tok, sents) == Where(LimitFlags(lim, tok, sents))
    decreases |sents|
  {
    if sents != [] {
      var n := |sents| - 1;
      LimitRejectedWhere(lim, tok, sents[..n]);
      assert LimitFlags(lim, tok, sents)[..n] == LimitFlags(lim, tok, sents[..n]);
    }
  }

  /** The limit rejections are listed in increasing order, and an index is
      listed exactly when its sentence fails a limit. */
  lemma {:induction false} LimitRejectedSpec(lim: Limits, tok: Tokenizer, sents: seq<seq<string>>)
    ensures forall a :: 0 <= a < |LimitRejected(lim, tok, sents)| ==>
              && LimitRejected(lim, tok, sents)[a] < |sents|
              && LimitCheck(lim, tok, sents[LimitRejected(lim, tok, sents)[a]]).Some?
    ensures forall a, b :: 0 <= a < b < |LimitRejected(lim, tok, sents)| ==>
              LimitRejected(lim, tok, sents)[a] < LimitRejected(lim, tok, sents)[b]
    ensures forall i :: 0 <= i < |sents| && LimitCheck(lim, tok, sents[i]).Some? ==>
              i in LimitRejected(lim, tok, sents)
  {
    LimitRejectedWhere(lim, tok, sents);
    WhereSpec(LimitFlags(lim, tok, sents));
  }

  /** The indices the second loop appends: the sentences that pass the limits
      but whose piece counts do not add up, in order. */
  function MismatchRejected(lim: Limits, tok: Tokenizer, sents: seq<seq<string>>): seq<nat>
    decreases |sents|
  {
    if sents == [] then []
    else
      var n := |sents| - 1;
      MismatchRejected(lim, tok, sents[..n])
      + (if Verdict(lim, tok, sents[n]) == Some(AlignmentMismatch) then [n] else [])
  }

  /** Per sentence: is it one of the sentences that pass the limits but do not align? */
  function MismatchFlags(lim: Limits, tok: Tokenizer, sents: seq<seq<string>>): (f: seq<bool>)
    ensures |f| == |sents|
  {
    seq(|sents|, i requires 0 <= i < |sents| => Verdict(lim, tok, sents[i]) == Some(AlignmentMismatch))
  }

  lemma {:induction false} MismatchRejectedWhere(lim: Limits, tok: Tokenizer, sents: seq<seq<string>>)
    ensures MismatchRejected(lim, tok, sents) == Where(MismatchFlags(lim, tok, sents))
    decreases |sents|
  {
    if sents != [] {
      var n := |sents| - 1;
      MismatchRejectedWhere(lim, tok, sents[..n]);
      assert MismatchFlags(lim, tok, sents)[..n] == MismatchFlags(lim, tok, sents[..n]);
    }
  }

  /** The alignment rejections are listed in increasing order, and an index
      is listed exactly when its sentence passes the limits but does not
      align. */
  lemma {:induction false} MismatchRejectedSpec(lim: Limits, tok: Tokenizer, sents: seq<seq<string>>)
    ensures forall a :: 0 <= a < |MismatchRejected(lim, tok, sents)| ==>
              && MismatchRejected(lim, tok, sents)[a] < |sents|
              && Verdict(lim, tok, sents[MismatchRejected(lim, tok, sents)[a]]) == Some(AlignmentMismatch)
    ensures forall a, b :: 0 <= a < b < |MismatchRejected(lim, tok, sents)| ==>
              MismatchRejected(lim, tok, sents)[a] < MismatchRejected(lim, tok, sents)[b]
    ensures forall i :: 0 <= i < |sents| && Verdict(lim, tok, sents[i]) == Some(AlignmentMismatch) ==>
              i in MismatchRejected(lim, tok, sents)
  {
    MismatchRejectedWhere(lim, tok, sents);
    WhereSpec(MismatchFlags(lim, tok, sents));
  }

  /** `indices_to_rm` as `remove_indices` receives it. */
  function Rejected(lim: Limits, tok: Tokenizer, sents: seq<seq<string>>): (rm: seq<nat>)
    ensures forall a :: 0 <= a < |rm| ==> rm[a] < |sents|
  {
    LimitRejectedWhere(lim, tok, sents);
    MismatchRejectedWhere(lim, tok, sents);
    LimitRejected(lim, tok, sents) + MismatchRejected(lim, tok, sents)
  }

  /** The sentences that survive, in order. */
  function Survivors(lim: Limits, tok: Tokenizer, sents: seq<seq<string>>): (ks: seq<nat>)
    ensures forall a :: 0 <= a < |ks| ==> ks[a] < |sents|
    decreases |sents|
  {
    if sents == [] then []
    else
      var n := |sents| - 1;
      Survivors(lim, tok, sents[..n]) + (if Verdict(lim, tok, sents[n]).None? then [n] else [])
  }

  /** Per sentence: is it one of the sentences with no rejection reason? */
  function SurvivorFlags(lim: Limits, tok: Tokenizer, sents: seq<seq<string>>): (f: seq<bool>)
    ensures |f| == |sents|
  {
    seq(|sents|, i requires 0 <= i < |sents| => Verdict(lim, tok, sents[i]).None?)
  }

  lemma {:induction false} SurvivorsWhere(lim: Limits, tok: Tokenizer, sents: seq<seq<string>>)
    ensures Survivors(lim, tok, sents) == Where(SurvivorFlags(lim, tok, sents))
    decreases |sents|
  {
    if sents != [] {
      var n := |sents| - 1;
      SurvivorsWhere(lim, tok, sents[..n]);
      assert SurvivorFlags(lim, tok, sents)[..n] == SurvivorFlags(lim, tok, sents[..n]);
    }
  }

  /** The survivors are listed in increasing order, and an index is listed
      exactly when its sentence has no rejection reason. */
  lemma {:induction false} SurvivorsSpec(lim: Limits, tok: Tokenizer, sents: seq<seq<string>>)
    ensures forall a :: 0 <= a < |Survivors(lim, tok, sents)| ==>
              Verdict(lim, tok, sents[Survivors(lim, tok, sents)[a]]).None?
    ensures forall a, b :: 0 <= a < b < |Survivors(lim, tok, sents)| ==>
              Survivors(lim, tok, sents)[a] < Survivors(lim, tok, sents)[b]
    ensures forall i :: 0 <= i < |sents| && Verdict(lim, tok, sents[i]).None? ==>
              i in Survivors(lim, tok, sents)
  {
    SurvivorsWhere(lim, tok, sents);
    WhereSpec(SurvivorFlags(lim, tok, sents));
  }

  /** Every sentence is listed for removal at most once, and it is listed
      exactly when it has a rejection reason. */
  lemma RejectedOnce(lim: Limits, tok: Tokenizer, sents: seq<seq<string>>)
    ensures var rm := Rejected(lim, tok, sents);
      forall a, b :: 0 <= a < b < |rm| ==> rm[a] != rm[b]
    ensures forall i: nat :: i in Rejected(lim, tok, sents) <==> i < |sents| && Verdict(lim, tok, sents[i]).Some?
  {
    var l, m := LimitRejected(lim, tok, sents), MismatchRejected(lim, tok, sents);
    LimitRejectedSpec(lim, tok, sents);
    MismatchRejectedSpec(lim, tok, sents);
    var rm := l + m;
    forall a, b | 0 <= a < b < |rm|
      ensures rm[a] != rm[b]
    {
      if b < |l| {
        assert rm[a] == l[a] && rm[b] == l[b];
      } else if a >= |l| {
        assert rm[a] == m[a - |l|] && rm[b] == m[b - |l|];
      } else {
        assert LimitCheck(lim, tok, sents[rm[a]]).Some?;
        assert Verdict(lim, tok, sents[rm[b]]) == Some(AlignmentMismatch);
      }
    }
    forall i: nat
      ensures i in rm <==> i < |sents| && Verdict(lim, tok, sents[i]).Some?
    {
      if i < |sents| && Verdict(lim, tok, sents[i]).Some? {
        if LimitCheck(lim, tok, sents[i]).Some? {
          assert i in l;
        } else {
          assert i in m;
        }
      }
      if i in rm {
        if i in l {
          var a :| 0 <= a < |l| && l[a] == i;
        } else {
          var a :| 0 <= a < |m| && m[a] == i;
        }
      }
    }
  }

  /** The indices `remove_indices` keeps are the survivors. */
  lemma KeptAreSurvivors(lim: Limits, tok: Tokenizer, sents: seq<seq<string>>, n: nat)
    requires n <= |sents|
    ensures KeptIndices(n, Rejected(lim, tok, sents)) == Survivors(lim, tok, sents[..n])
  {
    RejectedOnce(lim, tok, sents);
    KeptWhereNoVerdict(lim, tok, sents, Rejected(lim, tok, sents), n);
  }

  /** Removing exactly the sentences with a rejection reason keeps the
      sentences without one. */
  lemma {:induction false} KeptWhereNoVerdict(lim: Limits, tok: Tokenizer, sents: seq<seq<string>>, rm: seq<nat>, n: nat)
    requires n <= |sents|
    requires forall i: nat :: i in rm <==> i < |sents| && Verdict(lim, tok, sents[i]).Some?
    ensures KeptIndices(n, rm) == Survivors(lim, tok, sents[..n])
    decreases n
  {
    if n > 0 {
      KeptWhereNoVerdict(lim, tok, sents, rm, n - 1);
      var p := sents[..n];
      assert p[..n - 1] == sents[..n - 1];
      assert p[n - 1] == sents[n - 1];
      var rejected := n - 1 in rm;
      assert rejected <==> Verdict(lim, tok, sents[n - 1]).Some?;
      assert KeptIndices(n, rm) == KeptIndices(n - 1, rm) + (if rejected then [] else [n - 1]);
      assert Survivors(lim, tok, p) == Survivors(lim, tok, p[..n - 1])
        + (if Verdict(lim, tok, p[n - 1]).None? then [n - 1] else []);
    }
  }

  /** The rows the second loop appends, sentence by sentence. */
  function ExamplesOf(lim: Limits, tok: Tokenizer, sents: seq<seq<string>>): (ex: Examples)
    ensures |ex.bertIds| == |ex.segments| == |ex.maxSegment|
    decreases |sents|
  {
    if sents == [] then Examples([], [], [])
    else
      var n := |sents| - 1;
      var ex := ExamplesOf(lim, tok, sents[..n]);
      var sent := sents[n];
      if Verdict(lim, tok, sent).Some? then ex
      else
        Examples(ex.bertIds + [GetBertIds(lim.maxWordpieces, tok, SentenceWordpieces(tok, sent))],
                 ex.segments + [SegmentMap(lim.maxWordpieces, PieceCounts(tok, sent))],
                 ex.maxSegment + [|sent|])
  }

  /** One step of the second loop of `training_examples`: sentence `i` is
      skipped exactly when the first loop listed it, and it then adds either
      an alignment rejection or one row. */
  lemma AlignStep(lim: Limits, tok: Tokenizer, sents: seq<seq<string>>, i: nat)
    requires i < |sents|
    ensures i in LimitRejected(lim, tok, sents) + MismatchRejected(lim, tok, sents[..i])
            <==> LimitCheck(lim, tok, sents[i]).Some?
    ensures MismatchRejected(lim, tok, sents[..i + 1]) ==
      MismatchRejected(lim, tok, sents[..i])
      + (if Verdict(lim, tok, sents[i]) == Some(AlignmentMismatch) then [i] else [])
    ensures ExamplesOf(lim, tok, sents[..i + 1]) ==
      var ex, sent := ExamplesOf(lim, tok, sents[..i]), sents[i];
      if Verdict(lim, tok, sent).Some? then ex
      else Examples(ex.bertIds + [GetBertIds(lim.maxWordpieces, tok, SentenceWordpieces(tok, sent))],
                    ex.segments + [SegmentMap(lim.maxWordpieces, PieceCounts(tok, sent))],
                    ex.maxSegment + [|sent|])
  {
    LimitRejectedSpec(lim, tok, sents);
    MismatchRejectedSpec(lim, tok, sents[..i]);
    assert sents[..i + 1][..i] == sents[..i];
    assert sents[..i + 1][i] == sents[i];
    assert i !in MismatchRejected(lim, tok, sents[..i]);
  }

  /** Row `k` of the examples is built from the `k`-th surviving sentence. */
  lemma {:induction false} ExamplesOfSurvivors(lim: Limits, tok: Tokenizer, sents: seq<seq<string>>)
    ensures var ex, ks := ExamplesOf(lim, tok, sents), Survivors(lim, tok, sents);
      && |ex.bertIds| == |ks| && |ex.segments| == |ks| && |ex.maxSegment| == |ks|
      && forall k :: 0 <= k < |ks| ==>
           && ex.bertIds[k] == GetBertIds(lim.maxWordpieces, tok, SentenceWordpieces(tok, sents[ks[k]]))
           && ex.segments[k] == SegmentMap(lim.maxWordpieces, PieceCounts(tok, sents[ks[k]]))
           && ex.maxSegment[k] == |sents[ks[k]]|
    decreases |sents|
  {
    if sents != [] {
      var n := |sents| - 1;
      var p := sents[..n];
      ExamplesOfSurvivors(lim, tok, p);
      var ex0, ks0 := ExamplesOf(lim, tok, p), Survivors(lim, tok, p);
      var ex, ks := ExamplesOf(lim, tok, sents), Survivors(lim, tok, sents);
      if Verdict(lim, tok, sents[n]).Some? {
        assert ex == ex0 && ks == ks0;
      } else {
        assert ks == ks0 + [n];
        assert ex.bertIds == ex0.bertIds + [GetBertIds(lim.maxWordpieces, tok, SentenceWordpieces(tok, sents[n]))];
        assert ex.segments == ex0.segments + [SegmentMap(lim.maxWordpieces, PieceCounts(tok, sents[n]))];
        assert ex.maxSegment == ex0.maxSegment + [|sents[n]|];
      }
      forall k | 0 <= k < |ks0|
        ensures sents[ks0[k]] == p[ks0[k]]
      {
      }
    }
  }

  /** After `training_examples`, the corpus holds as many sentences as there
      are rows, and row `k` (ids, segment map, and a recorded segment count
      equal to the word count) belongs to the `k`-th remaining sentence, which
      passed every check. */
  lemma TrainingExamplesAligned(lim: Limits, tok: Tokenizer, sents: seq<seq<string>>)
    ensures var kept, ex := FilterIndices(sents, Rejected(lim, tok, sents)), ExamplesOf(lim, tok, sents);
      && |ex.bertIds| == |kept| && |ex.segments| == |kept| && |ex.maxSegment| == |kept|
      && forall k :: 0 <= k < |kept| ==>
           && Verdict(lim, tok, kept[k]).None?
           && ex.bertIds[k] == GetBertIds(lim.maxWordpieces, tok, SentenceWordpieces(tok, kept[k]))
           && ex.segments[k] == SegmentMap(lim.maxWordpieces, PieceCounts(tok, kept[k]))
           && ex.maxSegment[k] == |kept[k]|
  {
    var rm := Rejected(lim, tok, sents);
    FilterIndicesSpec(sents, rm);
    KeptAreSurvivors(lim, tok, sents, |sents|);
    assert sents[..|sents|] == sents;
    ExamplesOfSurvivors(lim, tok, sents);
    SurvivorsSpec(lim, tok, sents);
    var kept, ks := FilterIndices(sents, rm), Survivors(lim, tok, sents);
    assert forall k :: 0 <= k < |kept| ==> kept[k] == sents[ks[k]];
  }

  /** What a surviving row looks like: `size` vocabulary ids that end in
      zeros after the `[CLS] ... [SEP]` pieces, and a segment map of the same
      size whose filled positions are exactly those between the two markers,
      word `w` taking as many of them as it has pieces on its own. */
  lemma SurvivorRowShape(lim: Limits, tok: Tokenizer, sent: seq<string>)
    requires Verdict(lim, tok, sent).None?
    ensures var wp, cs := SentenceWordpieces(tok, sent), PieceCounts(tok, sent);
      var ids, m := GetBertIds(lim.maxWordpieces, tok, wp), SegmentMap(lim.maxWordpieces, cs);
      && 2 <= |wp| < lim.maxWordpieces && |sent| < lim.maxTokens
      && |ids| == lim.maxWordpieces && ids[..|wp|] == ConvertTokensToIds(tok, wp)
      && (forall j :: |wp| <= j < |ids| ==> ids[j] == 0)
      && |m| == lim.maxWordpieces && m[0] == -1
      && (forall j :: 0 <= j < |m| ==> (m[j] == -1 <==> j == 0 || j >= |wp| - 1))
      && (forall j, w :: 0 <= j < |m| && 0 <= w < |sent| ==>
            (m[j] == w <==> 1 + Sum(cs[..w]) <= j < 1 + Sum(cs[..w]) + |tok.tokenize(sent[w])|))
  {
    var cs := PieceCounts(tok, sent);
    SegmentMapSentinels(lim.maxWordpieces, cs);
    forall w | 0 <= w < |sent| {
      SegmentMapWord(lim.maxWordpieces, cs, w);
    }
  }
}
