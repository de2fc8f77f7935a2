# CoNLL-U corpus wrapper, modelled in Dafny

This project models `ConllWrapper`, the corpus object of the multilingual
transformer-probing code (`src/data_support/conll_wrapper.py`). The object
reads a CoNLL-U treebank into parallel per-sentence lists: tokens, lemmas,
POS tags, (dependent, head) relations, and the ids of the root words. It then
turns every sentence into a BERT training row: padded wordpiece ids, and a
wordpiece-to-word segment map with the number of words. Sentences whose
word count reaches `MAX_TOKENS`, or whose wordpieces reach `MAX_WORDPIECES`,
are rejected. So are sentences whose per-word wordpieces do not add up to
the wordpieces of the joined sentence. The rejected positions are removed
from the four per-sentence lists. The same positions are also removed from
`roots`, although `roots` is not indexed by sentence.

The model is split into modules:

- `Strings` (`strings.dfy`): the Python string built-ins of the core: the
  reader's `strip`, `split('\t')`, `isdigit` and `int`, and the `' '.join`
  that `training_examples` applies to a sentence's words.
- `Conllu` (`conllu.dfy`): the reader as a fold over the lines of the file.
  `Classify` reads one line, raising the same exceptions in the same order
  as the Python code. `Apply` applies one line's effect. `Parse` folds over
  the whole file.
- `IndexFilter` (`indexfilter.dfy`): the `remove_indices` comprehension, and
  the indices it keeps.
- `Alignment` (`alignment.dfy`): the two loops of `training_examples` and
  `get_bert_ids`, as functions of the token lists. This covers the verdict
  per sentence, the segment map, the rejection lists and the rows.
- `Views` (`views.dfy`): the four read-only properties.
- `Wrapper` (`conll_wrapper.dfy`): the `ConllWrapper` class itself. Its
  fields are updated in place by `ReadConllu`, `RemoveIndices` and
  `TrainingExamples`. Each of these is proved against the functions above.
  The segment map is filled in an `array`, one NumPy slice assignment per
  word. `Load` is `__init__`.

Inputs the code reads from elsewhere become parameters:

- the tokenizer is a pair of functions: `tokenize` and the vocabulary lookup;
- the `constants` module becomes a `Layout` (the CoNLL-U column indices) and
  `Limits` (`MAX_TOKENS` and `MAX_WORDPIECES`);
- the file is the sequence of its lines, each as Python yields it when
  iterating over the file: with its `"\n"`, except possibly the last line.
  Such a last line is still read as a word line, because `strip` removes the
  newline anyway and the line is not the blank line `"\n"`.

An exception of the reader (`IndexError` on a missing column, `ValueError`
from `int()`) is returned as an error value.

`roots` holds one id per word whose head is 0, across the whole file
(conll_wrapper.py:87-88). Yet `remove_indices` filters it by sentence
position (conll_wrapper.py:54-55). A rejected sentence's root ids can
therefore stay, and the ids at the rejected positions, which may belong to
other sentences, go. `RemoveFrom` and `RemoveIndices` model this as
written.

## Model

| member | source | states |
|---|---|---|
| Strings.StripSpec | src/data_support/conll_wrapper.py:81 | `strip()` removes exactly the leading and trailing whitespace. The result is an infix of the line that neither starts nor ends with whitespace, and everything cut off around it is whitespace. |
| Strings.StripLeftSpec | src/data_support/conll_wrapper.py:81 | The left half of `strip()`: a suffix remains that does not start with whitespace, and the removed prefix is all whitespace. |
| Strings.StripRightSpec | src/data_support/conll_wrapper.py:81 | The right half of `strip()`: a prefix remains that does not end with whitespace, and the removed suffix is all whitespace. |
| Strings.SplitJoin | src/data_support/conll_wrapper.py:81 | No field produced by `split('\t')` contains a tab, and joining the fields with tabs gives back the stripped line. |
| Strings.ParseInt | src/data_support/conll_wrapper.py:82-84 | `int()` of an all-digit field is its decimal value. Any string `int()` accepts is digits with at most one leading sign. |
| Strings.ParseIntSigned | src/data_support/conll_wrapper.py:82-84 | For all-digit `d`, `int("+d")` is the value of `d` and `int("-d")` is its negation, so a HEAD of `"-0"` or `"+0"` is 0 and makes the word a root. |
| Strings.ParseIntDecimal | src/data_support/conll_wrapper.py:82-84 | Reading back a rendered id gives the id: the rendering is all digits, so it passes `isdigit()`, and `int(str(n)) == n`. |
| Conllu.Classify | src/data_support/conll_wrapper.py:67-92 | Every line falls in exactly one case. A line is a sentence boundary if and only if it is exactly `"\n"`. It is ignored if and only if it is a comment or its ID is not all digits. It is a word if and only if its ID is all digits, its HEAD is an integer, and its ORTH, LEMMA and POS columns exist; the word's relation and strings are then those columns. An exception is raised if and only if the ID column is missing, or the ID is all digits and HEAD is missing or not an integer or a later column is missing. An `IndexError` names a missing column, and a `ValueError` names a text `int()` refuses. |
| Conllu.Apply | src/data_support/conll_wrapper.py:67-92 | One line's effect: only a boundary adds a sentence, `roots` only grows, and the sentence under construction stays parallel. |
| Conllu.Parse | src/data_support/conll_wrapper.py:64-92 | The reader as a fold over the lines. On success, nothing already in the five lists is lost (each starting list is a prefix of the result), and the sentence under construction is parallel. |
| Conllu.LineWord | src/data_support/conll_wrapper.py:82-92 | The word a well-formed word line holds, read from its ID, HEAD, ORTH, LEMMA and POS columns, is what the reader makes of that line. |
| Conllu.ParseWordStep | src/data_support/conll_wrapper.py:82-92 | After a well-formed word line, the reader's state is the word step applied to the state before it. |
| Conllu.ParseWordLine | src/data_support/conll_wrapper.py:82-92 | A well-formed word line never raises. It appends exactly its relation, form, lemma and tag to the sentence under construction. It appends its id to `roots` exactly when its head is 0. The stored sentences do not change. |
| Conllu.OpenSentence | src/data_support/conll_wrapper.py:67-92 | The words read since the last blank line, taken straight from the columns of the word lines, form a parallel sentence with one entry per such line. |
| Conllu.ParseReadsWords | src/data_support/conll_wrapper.py:67-92 | The sentence under construction is exactly the words of the word lines since the last blank line, one entry per line. |
| Conllu.ParseBlankLine | src/data_support/conll_wrapper.py:67-77 | A blank line stores those words as one more sentence of each of the four lists, leaves `roots` alone and starts an empty sentence. |
| Conllu.ParseErrorPersists | src/data_support/conll_wrapper.py:64-92 | Once an exception is raised on a prefix of the file, reading the whole file ends with that same exception. |
| Conllu.ParseKeepsParallel | src/data_support/conll_wrapper.py:67-92 | Reading keeps tokens, lemmas, POS and relations parallel: the same number of sentences, with the same length sentence by sentence. The same holds for the sentence being built. |
| Conllu.ParseCountsSentences | src/data_support/conll_wrapper.py:67-77 | Every list gains exactly one sentence per blank line, and the sentences already present are kept unchanged. |
| Conllu.SkippedLineIsIgnored | src/data_support/conll_wrapper.py:78-82 | Inserting a comment line, or a line whose ID is not all digits, anywhere in the file does not change the result. |
| Conllu.ApplyCollectsRoots | src/data_support/conll_wrapper.py:67-92 | Every classified line keeps `roots` equal to the ids of the head-0 words read so far. |
| Conllu.ParseCollectsRoots | src/data_support/conll_wrapper.py:85-88 | `roots` holds the id of every word with head 0, in order, across sentences. This includes a last sentence that no blank line closes, which never reaches `tokens`. |
| Conllu.RootIdsAppend | src/data_support/conll_wrapper.py:87-88 | Collecting root ids distributes over concatenating word lists. |
| Wrapper.ConllWrapper.ReadConllu | src/data_support/conll_wrapper.py:57-92 | On success, the five lists are those the fold `Parse` produces from the previous state. An exception of the fold is returned as the error. The fields that are never filled are unchanged. |
| Wrapper.ConllWrapper.constructor | src/data_support/conll_wrapper.py:11-22 | Sets the file name and tokenizer, and makes every list empty. |
| IndexFilter.FilterIndicesSpec | src/data_support/conll_wrapper.py:45-55 | The filtered list holds exactly the elements at the kept positions, in their original order. |
| IndexFilter.KeptIndicesSpec | src/data_support/conll_wrapper.py:47 | The kept positions are exactly those below the length that are not listed for removal, each once, in increasing order. |
| IndexFilter.FilterKeepsParallel | src/data_support/conll_wrapper.py:45-55 | Two lists of equal length filtered by the same indices stay of equal length, and their `k`-th survivors come from the same unlisted position. |
| IndexFilter.FilterNothing | src/data_support/conll_wrapper.py:45-55 | When no position below the length is listed, the list is unchanged. |
| IndexFilter.FilterIndices | src/data_support/conll_wrapper.py:45-55 | The comprehension never lengthens a list. |
| Wrapper.RemoveFrom | src/data_support/conll_wrapper.py:45-55 | Filtering never lengthens a list. Four lists of one length are still of one length afterwards. `roots` is filtered by the same positions. |
| Wrapper.RemoveKeepsParallel | src/data_support/conll_wrapper.py:45-55 | Removing the same indices from every list keeps the corpus parallel. The `k`-th remaining sentence of each list is the original at the `k`-th unlisted position. An empty `roots` stays empty. |
| Wrapper.ConllWrapper.RemoveIndices | src/data_support/conll_wrapper.py:45-55 | Each of the five lists becomes its positional filter, and nothing else changes. |
| Alignment.ConvertTokensToIds | src/data_support/conll_wrapper.py:96 | One vocabulary id per wordpiece. |
| Alignment.Zeros | src/data_support/conll_wrapper.py:97 | `[0] * n` holds `n` zeros, and none when `n` is negative. |
| Alignment.GetBertIds | src/data_support/conll_wrapper.py:94-98 | The ids of the pieces come first, followed by zeros up to `MAX_WORDPIECES`. A list already that long is neither padded nor cut. |
| Alignment.SentenceWordpieces | src/data_support/conll_wrapper.py:114 | `[CLS]`, the pieces of the joined sentence, then `[SEP]`: two more than the tokenizer returns. |
| Alignment.LimitCheck | src/data_support/conll_wrapper.py:116-123 | The first loop rejects a sentence if and only if its word count reaches `MAX_TOKENS` or its wordpieces reach `MAX_WORDPIECES`. It never reports a mismatch. |
| Alignment.Verdict | src/data_support/conll_wrapper.py:116-123 | Each sentence gets at most one outcome. Too many tokens if and only if its word count reaches `MAX_TOKENS`. Too many wordpieces if and only if it passes that test and its pieces reach `MAX_WORDPIECES`. A mismatch if and only if it passes both and its per-word pieces plus 2 differ from its pieces. Kept otherwise. |
| Alignment.SumPrefixMonotone | src/data_support/conll_wrapper.py:140 | The wordpiece pointer never moves backwards. |
| Alignment.Owner | src/data_support/conll_wrapper.py:137-141 | A wordpiece position between the markers lies inside the span of the word returned: from the pointer before that word, for as many positions as it has pieces. |
| Alignment.OwnerUnique | src/data_support/conll_wrapper.py:137-141 | Word spans do not overlap: a position inside the span of word `w` is owned by `w`. |
| Alignment.SegmentMap | src/data_support/conll_wrapper.py:134 | The segment map has `MAX_WORDPIECES` entries. |
| Alignment.SegmentAtStep | src/data_support/conll_wrapper.py:139 | Laying out one more word writes its index over its span and leaves every other entry as it was. |
| Alignment.SegmentMapWord | src/data_support/conll_wrapper.py:134-141 | In the segment map, word `w` fills exactly the positions from the pointer before it, for as many positions as it has pieces of its own. |
| Alignment.SegmentMapMonotone | src/data_support/conll_wrapper.py:134-141 | Over the filled positions the segment ids never decrease. |
| Alignment.SegmentMapSentinels | src/data_support/conll_wrapper.py:134 | Position 0 (the `[CLS]` slot) and every position past the last word's pieces stay -1. |
| Wrapper.FillSegments | src/data_support/conll_wrapper.py:134-141 | The array loop produces the segment map, with writes past the end dropped as NumPy clips the slice. The final pointer is 1 plus the sum of the per-word piece counts, and the final segment id is the word count. |
| IndexFilter.WhereSpec | src/data_support/conll_wrapper.py:113-123 | Collecting the indices whose test holds lists exactly those, each once, in increasing order. |
| Alignment.LimitRejectedSpec | src/data_support/conll_wrapper.py:113-123 | The first loop lists exactly the sentences that fail a limit, in increasing order. |
| Wrapper.LimitPass | src/data_support/conll_wrapper.py:110-123 | The first loop computes the joined-sentence wordpieces of every sentence, and the limit rejections. |
| Alignment.MismatchRejectedSpec | src/data_support/conll_wrapper.py:143-145 | The second loop appends exactly the sentences that pass the limits but do not align, in increasing order. |
| Alignment.SurvivorsSpec | src/data_support/conll_wrapper.py:143-149 | The surviving sentences are exactly those without a rejection reason, in increasing order. |
| Alignment.Rejected | src/data_support/conll_wrapper.py:113-145 | `indices_to_rm` names sentences of the corpus only. |
| Alignment.RejectedOnce | src/data_support/conll_wrapper.py:118-145 | `indices_to_rm` lists every sentence at most once. It lists a sentence if and only if that sentence has a rejection reason. |
| Alignment.KeptAreSurvivors | src/data_support/conll_wrapper.py:151 | The positions `remove_indices` keeps are the surviving sentences. |
| Alignment.KeptWhereNoVerdict | src/data_support/conll_wrapper.py:45-55 | Removing exactly the sentences with a rejection reason keeps exactly those without one, in order. |
| Alignment.ExamplesOf | src/data_support/conll_wrapper.py:125-150 | The rows the second loop builds: ids, segment maps and segment counts stay of one length. |
| Alignment.AlignStep | src/data_support/conll_wrapper.py:129-150 | At sentence `i` the second loop skips if and only if the first loop listed `i`. It then adds either one mismatch index or one row. |
| Wrapper.AlignSentence | src/data_support/conll_wrapper.py:134-149 | For a sentence within the limits, the loop body aligns it if and only if its verdict is "kept". An aligned sentence yields its padded ids, its segment map and its word count. |
| Wrapper.AlignIteration | src/data_support/conll_wrapper.py:130-150 | One iteration of the second loop extends the rejection list and the rows exactly as one more sentence extends `MismatchRejected` and `ExamplesOf`. |
| Wrapper.AlignPass | src/data_support/conll_wrapper.py:125-150 | The second loop leaves `indices_to_rm` as all the rejections. Its rows are those of the surviving sentences, in order. |
| Alignment.ExamplesOfSurvivors | src/data_support/conll_wrapper.py:143-149 | Row `k` is built from the `k`-th surviving sentence. |
| Alignment.TrainingExamplesAligned | src/data_support/conll_wrapper.py:100-153 | After filtering, there are as many sentences as rows. Row `k` belongs to the `k`-th remaining sentence, which passed every check. Its `max_segment` entry equals that sentence's word count. |
| Alignment.SurvivorRowShape | src/data_support/conll_wrapper.py:134-149 | A surviving row has exactly `MAX_WORDPIECES` ids, zero after the `[CLS] … [SEP]` pieces. Its segment map has the same size, is -1 exactly outside the pieces between the markers, and gives word `w` as many positions as it has pieces. |
| Wrapper.ConllWrapper.TrainingExamples | src/data_support/conll_wrapper.py:100-153 | Returns the rows of the surviving sentences. Every rejected position is removed from the four per-sentence lists and from `roots`, which `RemoveFrom` filters by the same positions. The remaining sentences and the rows correspond one to one, and every remaining sentence passed every check. |
| Wrapper.ConllWrapper.Load | src/data_support/conll_wrapper.py:9-25 | On a reader exception, returns that exception. Otherwise returns a fresh object that holds the given file name, tokenizer, column layout and limits, and whose lists are the parsed corpus minus the rejected sentences. The lists are parallel, every remaining sentence passed every check, and the returned rows are discarded. |
| Views.RelationMapSpec | src/data_support/conll_wrapper.py:29 | The dict has one key per dependent id. The value of an id is the head of its last occurrence. |
| Views.UnlabeledRelations | src/data_support/conll_wrapper.py:27-29 | One dict per sentence. |
| Views.UnlabeledRelationsHeads | src/data_support/conll_wrapper.py:27-29 | In a sentence with distinct dependent ids, `unlabeled_relations` maps every dependent to its head. |
| Views.PunctuationMask | src/data_support/conll_wrapper.py:31-33 | One entry per word, True if and only if the tag is not `PUNCT`. |
| Views.PyIndex | src/data_support/conll_wrapper.py:38 | Python's `mask[i]`: defined if and only if `-len <= i < len`. Negative indices count from the end. |
| Views.UnlabeledUnorderedRelations | src/data_support/conll_wrapper.py:35-39 | As written: when no `IndexError` is raised, one edge set per sentence that `zip` pairs with a mask. It raises on exactly the inputs where the corrected view raises. |
| Views.NonPunctuationUnorderedRelations | src/data_support/conll_wrapper.py:35-39 | The corrected view: when no `IndexError` is raised, one edge set per sentence that `zip` pairs with a mask. |
| Views.MaskedEdges | src/data_support/conll_wrapper.py:35-39 | With dependent ids in range, no `IndexError` is raised. A sentence holds exactly the pairs of head-non-0 words whose mask entry has the wanted value. |
| Views.PunctuationEdgesOnly | src/data_support/conll_wrapper.py:35-39 | As written, `unlabeled_unordered_relations` holds exactly the pairs whose dependent is tagged `PUNCT` and whose head is not 0. |
| Views.PunctuationFilterInverted | src/data_support/conll_wrapper.py:38 | For "I ran .", the view as written holds the full stop's edge {3, 2} and not the pronoun's edge {1, 2}. |
| Views.NonPunctuationEdges | src/data_support/conll_wrapper.py:35-39 | Without the negation, the view holds exactly the pairs whose dependent is not punctuation and whose head is not 0. |
| Views.NonPunctuationFilterExample | src/data_support/conll_wrapper.py:38 | For "I ran .", the view without the negation holds {1, 2} and not {3, 2}. |
| Views.WordCount | src/data_support/conll_wrapper.py:41-43 | One count per sentence. |
| Views.WordCountIsMaxSegment | src/data_support/conll_wrapper.py:41-43 | After `training_examples`, the word count of each remaining sentence equals the `max_segment` entry of its row. |

## Left out

- The network module and the training, probing and evaluation code are not part of this model.
- File I/O: `open()` is replaced by the file's lines given as a sequence.
- The `print` calls that report each skipped sentence are left out, because they do not change any state.
- TensorFlow and NumPy values are modelled as sequences of unbounded integers: `tf.constant`, `tf.stack` and the `int64` dtype. Overflow of `int64` is not modelled.
- The tokenizer is an opaque function, and its internals are not modelled: BPE, the vocabulary, and `add_special_tokens=False`.
- `number_examples`, `sentence_features` and `sentid` are computed but never used, so they are not modelled.
- Strings.ParseInt: models `int()` on ASCII digits with an optional sign only. Python also accepts surrounding whitespace, underscores between digits and non-ASCII digits. Whitespace and underscores can reach `int()` only through the HEAD column. Non-ASCII digits also pass `isdigit()` in the ID column (conll_wrapper.py:82) and reach `int()` at line 84; see Strings.IsDigits.
- Strings.IsDigits: models `isdigit()` on ASCII digits only. Python also accepts other Unicode digits, so an ID such as `"٣"` is read as dependent 3, and an ID such as `"²"` passes `isdigit()` but makes `int()` raise `ValueError`. The model treats both lines as ignored.
- Wrapper.ConllWrapper.ReadConllu: after an exception, the state of the object is not specified. Python leaves the partly filled lists in place, but `__init__` raises and nobody sees the object.
- Limits and Layout are natural numbers. A negative `MAX_TOKENS`, `MAX_WORDPIECES` or column index (Python would index from the end) is not modelled.

## Findings

| source | as written | input that shows it | evidently intended | confidence | as-written member | corrected member |
|---|---|---|---|---|---|---|
| src/data_support/conll_wrapper.py:37-39 | Keeps an edge when `not sent_punctuation_mask[dep - 1]`. The mask is True for non-punctuation, so only edges whose dependent is `PUNCT` are kept. | "I ran .", with relations (1,2), (2,0), (3,2) and tags PRON, VERB, PUNCT. The view is {{3,2}}, the full stop's edge, and {1,2} is missing. | The unordered edges of the non-punctuation words: {{1,2}}. | medium, not executed | Views.PunctuationFilterInverted | Views.NonPunctuationFilterExample |
