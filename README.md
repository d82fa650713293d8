# CTranslate2 core, modelled in Dafny

This project models the parts of CTranslate2 that fix data layouts and
shapes, and proves properties of them.

- **The model-specification framework of the Python converter** (`LayerSpec`).
  - A layer owns named attributes. Each attribute is a nested layer, a list of layers, or a leaf. A leaf is an array, the sentinel string `"optional"`, or `None`.
  - One visitor walks the tree: `visit_spec`, with `_join_scope` and `_split_scope` for scoped names.
  - `validate`, `variables` and `quantize` are callbacks of that visitor.
  - `serialize` writes the versioned, name-sorted binary record table that the native loader reads.
- **Four tensor operators of the runtime.**
  - `Split`: its constructors, argument checks, per-output shapes, the in-place views, and the strided copy of `compute`.
  - `Concat::compute`: the mirror-image strided copy.
  - `Squeeze`: the sorting constructor, `transform_shape` and both `operator()` overloads.
  - `TopK::compute`: per-row selection with `iota` and `partial_sort`.
  - Tensors are a `StorageView` class: a shape over a window of an `array<int>`.
- **The vocabulary map.** The constructor parses the map file's lines into a table of rules, one map per n-gram order. It also collects the fixed candidates. `empty` is modelled too.
- **The translator's own logic.**
  - `make_inputs`: the lengths, the longest length and the padded id matrix.
  - The argument checks of `translate_batch_with_prefix`, in the order the code makes them.
  - Forwarding the target prefix through the decoder, one token per step.
  - The choice between greedy and beam search.
  - Building the results, with the prefix put in front of each hypothesis.
  - The single-sentence wrappers `translate` and `translate_with_prefix`.
  - The encoder, the decoder and the search algorithms are parameters.

The code is imperative where the source is:

- The operators, the map constructor, `make_inputs` and the result loop are methods with loop invariants.
- Each method is proved against a specification function. Lemmas state what that function promises.
- `validate` and `quantize` are tree rewrites. A lemma shows that what the visitor's callback sees is fixed by the tree as it was before the visit. This is the snapshot that `list(...)` takes of the attribute list.
- A successful `quantize` is described layer by layer: which leaf `weight` and `weight_scale` come from, what every other slot holds, and that nested layers get the same description one scope down.
- The split/concat round trip is proved in both directions.

## Model

| member | source | states |
|---|---|---|
| ModelSpec.SplitJoin | python/ctranslate2/specs/model_spec.py:12-18 | Splitting `_join_scope(scope, n)` at "/" gives the scope's segments followed by `n` (just `[n]` for the empty scope); its last segment is `n` |
| ModelSpec.DecimalRoundTrip | python/ctranslate2/specs/model_spec.py:25 | The `%d` index of a list element's segment `name_i` reads back as `i` |
| ModelSpec.Decimal | python/ctranslate2/specs/model_spec.py:25 | The index in a list element's segment is a non-empty string of decimal digits |
| ModelSpec.VisitLayerFollowsTrace | python/ctranslate2/specs/model_spec.py:20-29 | The calls the callback receives are the leaves of the original tree, in order, under their scoped names (`name_i` for list elements, `name` for nested layers). So are the accumulated result and the first exception, whatever the callback does to the owning layers |
| ModelSpec.ValidateSpec | python/ctranslate2/specs/model_spec.py:39-49 | `validate` raises "Missing value for attribute <scoped name>" iff some leaf is None, naming the first such leaf. Otherwise the result is the tree with every float16 ndarray promoted to float32 in its own slot, all else unchanged |
| ModelSpec.PromotedLeaves | python/ctranslate2/specs/model_spec.py:45-48 | After promotion no leaf is a float16 ndarray. Leaf names are kept, and no leaf becomes None |
| ModelSpec.ValidateIdempotent | python/ctranslate2/specs/model_spec.py:39-49 | Validating a validated tree succeeds and changes nothing |
| ModelSpec.PutSpec | python/ctranslate2/specs/model_spec.py:57 | `d[k] = v` maps `k` to `v` and keeps every other entry. Keys stay unique |
| ModelSpec.RegisterFoldSpec | python/ctranslate2/specs/model_spec.py:53-58 | The dict the `_register_var` calls build has unique keys. It holds a key iff a non-OPTIONAL leaf registers it, and maps it to the value of the last such leaf |
| ModelSpec.VariablesSpec | python/ctranslate2/specs/model_spec.py:51-59 | `variables(prefix)` maps `_join_scope(prefix, scoped name)` to the leaf's value for every leaf except OPTIONAL ones, None leaves included, and holds nothing else |
| ModelSpec.QuantizeFails | python/ctranslate2/specs/model_spec.py:61-79 | `quantize` raises iff some leaf of the original tree has "weight" in its scoped name and cannot be quantized in the mode: it is not an array; for int16 it has no elements (`amax` of an empty array); for int8 it has rank below 2, an empty axis 1 or an integer dtype. With a mode other than int16 or int8, it raises iff some scoped name contains "weight" (`scale` unbound at line 77) |
| ModelSpec.QuantizedShape | python/ctranslate2/specs/model_spec.py:66-76 | The quantized weight keeps its shape and becomes int16 or int8, one element per truncated value. The scale has the leaf's dtype: a scalar for int16, the shape without axis 1 for int8 |
| ModelSpec.QuantizeEmptyWeight | python/ctranslate2/specs/model_spec.py:69-75 | An int16 weight of shape `[0, n]` and an int8 weight of shape `[n, 0]` both make `quantize` fail with numpy's zero-size reduction error |
| ModelSpec.QuantizedConsistent | python/ctranslate2/specs/model_spec.py:66-76 | When the arithmetic keeps lengths (one truncated value per element, a scale per `amax` result entry, `*=` keeping the bytes), a leaf whose bytes match its shape and dtype gives a weight, a scale and a scaled leaf whose bytes match theirs |
| QuantizePass.QuantizeHead | python/ctranslate2/specs/model_spec.py:22-29 | Visiting the first attribute of the snapshot changes only its own slot and, for a weight-named leaf, `weight` and `weight_scale`, which then hold that leaf's quantized pair. A nested layer or list is stored back only if its slot still holds one |
| QuantizePass.QuantizeKeeps | python/ctranslate2/specs/model_spec.py:22-29 | A slot that no later attribute of the snapshot writes keeps what it holds to the end of the pass |
| QuantizePass.QuantizeLeafQuantizable | python/ctranslate2/specs/model_spec.py:64-76 | In a pass that does not raise, every weight-named leaf was quantizable in the mode |
| QuantizePass.QuantizeLastWeight | python/ctranslate2/specs/model_spec.py:77-78 | After the pass, `weight` and `weight_scale` hold the pair computed from the last weight-named leaf of the snapshot |
| QuantizePass.QuantizeSlot | python/ctranslate2/specs/model_spec.py:22-29 | An attribute of the snapshot whose name is not `weight` or `weight_scale` (any name, when no leaf is weight-named) ends up scaled in place if it was a quantized non-scalar leaf, as the same pass one scope down if it was a layer or list, and as it was otherwise |
| QuantizePass.QuantizeLayerSpec | python/ctranslate2/specs/model_spec.py:61-79 | A successful `quantize` on a well-named layer at any scope: class and revision kept, every weight-named leaf quantizable, `weight` and `weight_scale` from the last of them, every other slot as `QuantizeSlot` says, and no new name but those two. Nested layers are described by the same lemma one scope down |
| ModelSpec.QuantizeRewriteSpec | python/ctranslate2/specs/model_spec.py:64-78 | One `_quantize` call on a weight leaf: the owner's `weight` holds the quantized array and `weight_scale` the scale. The leaf's own slot holds its array scaled in place (a numpy scalar is not changed). Every other attribute is kept |
| ModelSpec.QuantizeRewriteKeepsNames | python/ctranslate2/specs/model_spec.py:77-78 | `setattr` only rebinds or appends: the owner's attribute names keep their order |
| ModelSpec.Clip16 | python/ctranslate2/specs/model_spec.py:71 | `np.clip` to int16 bounds: the same length, every element within [-32768, 32767], and in-range elements unchanged |
| ModelSpec.QuantizeInt16Bound | python/ctranslate2/specs/model_spec.py:69-72 | The int16 weight's bytes read back as the clipped, truncated scaled values, all within int16 |
| ModelSpec.QuantizeInt8Values | python/ctranslate2/specs/model_spec.py:74-76 | The int8 weight's bytes read back as the truncated scaled values when those fit in eight bits |
| ModelSpec.QuantizeWithoutWeights | python/ctranslate2/specs/model_spec.py:64-65 | A tree none of whose scoped names contains "weight" comes back unchanged, in every mode |
| ModelSpec.QuantizeAddsScale | python/ctranslate2/specs/model_spec.py:22 | The snapshot at work: quantizing a layer whose only attribute is `weight` appends `weight_scale` and does not visit it in the same pass |
| ModelSpec.RequantizeHitsScale | python/ctranslate2/specs/model_spec.py:61-79 | A second int16 pass is not guarded against. It also visits `weight_scale`, whose name contains "weight", so `weight` ends up holding the quantized scale |
| Bytes.U16RoundTrip | python/ctranslate2/specs/model_spec.py:91 | A uint16 is two bytes, little-endian, and reads back |
| Bytes.U32RoundTrip | python/ctranslate2/specs/model_spec.py:95 | A uint32 is four bytes, little-endian, and reads back |
| Bytes.I16sRoundTrip | python/ctranslate2/specs/model_spec.py:72 | The raw bytes of an int16 array decode to its elements |
| Bytes.I8sRoundTrip | python/ctranslate2/specs/model_spec.py:76 | The raw bytes of an int8 array decode to its elements |
| SpecSerializer.PackU8 | python/ctranslate2/specs/model_spec.py:93 | `struct.pack("B", x)` succeeds iff 0 <= x < 256, and gives the one byte x |
| SpecSerializer.PackU16 | python/ctranslate2/specs/model_spec.py:91 | `struct.pack("H", x)` succeeds iff x is within uint16, giving two bytes |
| SpecSerializer.PackU32 | python/ctranslate2/specs/model_spec.py:95 | `struct.pack("I", x)` succeeds iff x is within uint32, giving four bytes |
| SpecSerializer.Latin1 | python/ctranslate2/specs/model_spec.py:92 | `six.b(s)` succeeds iff every character is below 256, giving one byte per character |
| SpecSerializer.EncodeString | python/ctranslate2/specs/model_spec.py:90-93 | `_write_string`: uint16 prefix, the bytes of `s`, and a 0 terminator. The prefix equals the number of bytes after it |
| SpecSerializer.EncodeHeader | python/ctranslate2/specs/model_spec.py:95-98 | The header is written iff the class name is encodable and the revision and the count fit in uint32 |
| SpecSerializer.SortByName | python/ctranslate2/specs/model_spec.py:99 | `sorted(..., key=name)` is a permutation of the dict's entries |
| SpecSerializer.SortStrict | python/ctranslate2/specs/model_spec.py:99 | With distinct names, the sorted records are strictly ascending by name |
| SpecSerializer.WriteHeader | python/ctranslate2/specs/model_spec.py:95-98 | The header writes, in order, give the header encoding |
| SpecSerializer.WriteRecord | python/ctranslate2/specs/model_spec.py:100-106 | One iteration of the record loop gives the record encoding: name, rank, dimensions, item size, count, raw bytes |
| SpecSerializer.WriteRecords | python/ctranslate2/specs/model_spec.py:99-106 | The record loop writes the records in order and stops at the first exception |
| SpecSerializer.Serialize | python/ctranslate2/specs/model_spec.py:85-106 | `serialize` writes exactly `Serialization(l)`: the header, then the records in name order |
| SpecSerializer.SerializationSucceeds | python/ctranslate2/specs/model_spec.py:85-106 | `serialize` succeeds iff the class name is encodable, the revision and the variable count fit in uint32, and every variable can be packed (no None value, names in latin-1, fields in range) |
| SpecSerializer.SerializationByContent | python/ctranslate2/specs/model_spec.py:99-106 | The file depends only on the class name, the revision and the name-to-value content of `variables()`, not on the order the visit found the leaves in |
| SpecSerializer.SerializeRoundTrip | python/ctranslate2/specs/model_spec.py:85-106 | Reading the file back gives version 2, the class name, the revision, and one record per variable in ascending name order. Each record has the variable's name, shape, item size, element count and raw bytes |
| SplitOp.NewSplit | include/ctranslate2/ops/split.h:10-22 | Construction succeeds iff `no_copy` is off or the axis is 0. Otherwise it fails with the `check_arguments` message. The total is the sum of the sizes |
| SplitOp.PartSizes | include/ctranslate2/ops/split.h:39-62 | The checks in order: count mismatch, then dimension mismatch with configured sizes, or divisibility without them. On success there are n sizes summing to the axis dimension, the configured ones or equal shares |
| SplitOp.Apply | include/ctranslate2/ops/split.h:37-76 | `operator()` fails iff the checks fail, with their message, and leaves the outputs untouched. On success output j is part j: the input's shape with the axis shrunk, and the block of columns after those of the parts before it. Copying gives each output fresh storage. The input is never written |
| SplitOp.CopyParts | include/ctranslate2/ops/split.h:57-75 | The copying path: every output becomes its part, in fresh storage |
| SplitOp.ViewInPlace | include/ctranslate2/ops/split.h:57-70 | The `no_copy` path: every output becomes its part, viewing the input's storage |
| SplitOp.ResizeParts | include/ctranslate2/ops/split.h:58-68 | Each output is resized to the input's shape with the axis dimension of its part, into distinct fresh buffers |
| SplitOp.ViewParts | include/ctranslate2/ops/split.h:57-69 | Output j views the input's storage from `stride(0) * (sum of the sizes before j)` on, with its part's shape |
| SplitOp.InPlaceParts | include/ctranslate2/ops/split.h:63-69 | Along the first axis, outputs viewing the input at those offsets are the parts |
| SplitOp.Compute | src/ops/split.cc:6-26 | `compute`: each output holds the block of columns of every input row that starts after the blocks of the outputs before it |
| SplitOp.ComputeAlong | src/ops/split.cc:11-25 | The loop over outputs: output j holds columns `sum(widths[..j])` to `+ widths[j]` of each row |
| SplitOp.CopyPart | src/ops/split.cc:12-23 | One output: `copy_dim` is its row width, and its buffer holds its block of columns |
| SplitOp.CopyRowsOut | src/ops/split.cc:19-23 | `x[i*copy_dim + c] == input[offset + i*row + c]` for every row and column |
| ConcatOp.Compute | src/ops/concat.cc:6-27 | `compute`: input j lands in the columns of the output after those of the inputs before it. The output's columns after all inputs keep what they held |
| ConcatOp.ConcatInput | src/ops/concat.cc:12-25 | One input: `copy_dim` is its row width. It is written in its columns, and the rest of the output is kept. An input with `copy_dim == 0` is skipped |
| ConcatOp.ConcatOne | src/ops/concat.cc:20-24 | `output[offset + i*row + c] == x[i*copy_dim + c]` for every row and column, and nothing outside those columns changes |
| ConcatOp.NothingToConcat | src/ops/concat.cc:18-19 | An input with no elements per row has an empty block, so skipping it loses nothing |
| ConcatOp.ConcatStep | src/ops/concat.cc:11-26 | One more input in its block, nothing else touched: the earlier blocks stay written and the next one is added |
| Blocks.ColumnsDetermine | src/ops/split.cc:19-24 | Blocks of consecutive columns that fill the row determine the whole buffer |
| Blocks.OwnerUnique | src/ops/split.cc:24 | Consecutive blocks do not overlap: no column belongs to two outputs |
| RoundTrip.SplitThenConcat | src/ops/concat.cc:20-25 | Concatenating the outputs of a split, along the same axis and in order, gives back the input's elements |
| RoundTrip.ConcatThenSplit | src/ops/split.cc:19-24 | Splitting a concatenation along its axis, into its inputs' sizes, gives back each input |
| RoundTrip.SplitPartsFit | include/ctranslate2/ops/split.h:58-62 | The parts of a split fit, in their order, a concat into the input's shape. Their widths add up to a whole row |
| Tensors.StorageView.Resize | include/ctranslate2/ops/split.h:67 | `resize(shape)`: fresh storage of the new size, from offset 0 |
| Tensors.StorageView.View | include/ctranslate2/ops/split.h:64-65 | `view(data, shape)`: the view looks at the given storage from the given offset |
| Tensors.StorageView.ShallowCopy | include/ctranslate2/ops/squeeze.h:19 | `shallow_copy`: share the other view's storage, offset and shape |
| Tensors.StorageView.Reshape | include/ctranslate2/ops/squeeze.h:16 | `reshape`: a new shape of the same size over the same storage |
| Tensors.OuterAndBlock | src/ops/split.cc:13-18 | `iter_dim` is the product of the dimensions before the axis, and `copy_dim` the product of those from it on |
| Tensors.CopyElements | src/ops/concat.cc:21-23 | `primitives::copy` between two views: the copied stretch equals the source's, and every other element is kept |
| SqueezeOp.Sort | include/ctranslate2/ops/squeeze.h:12 | `std::sort`: ascending, and a permutation of the axes |
| SqueezeOp.Squeeze.constructor | include/ctranslate2/ops/squeeze.h:10-13 | The stored axes are the given ones in ascending order |
| SqueezeOp.SqueezeShape | include/ctranslate2/ops/squeeze.h:26-38 | The loop of `transform_shape`: it fails iff a matched axis has a dimension other than 1. Otherwise it gives the dimensions at unmatched positions, in order, with the same element count |
| SqueezeOp.Squeeze.TransformShape | include/ctranslate2/ops/squeeze.h:26-38 | The same, for the op's sorted axes |
| SqueezeOp.Squeeze.ApplyInPlace | include/ctranslate2/ops/squeeze.h:15-17 | `operator()(data)`: `data` takes the squeezed shape over its own storage. On the error it is unchanged |
| SqueezeOp.Squeeze.ApplyTo | include/ctranslate2/ops/squeeze.h:18-21 | `operator()(data, squeezed)`: `squeezed` shares `data`'s storage and takes the squeezed shape; `data` is left alone |
| SqueezeOp.SqueezeKeepsSize | include/ctranslate2/ops/squeeze.h:28-36 | Dropping only dimensions of 1 keeps the element count |
| SqueezeOp.DroppedAreListed | include/ctranslate2/ops/squeeze.h:28-29 | For sorted axes without repeats, exactly the listed positions below the rank are squeezed away. Axes at or beyond the rank are ignored |
| SqueezeOp.MatchesBelowRank | include/ctranslate2/ops/squeeze.h:28-29 | For sorted axes without repeats, the matched axes are exactly those below the rank |
| SqueezeOp.RepeatStops | include/ctranslate2/ops/squeeze.h:28-32 | A repeated axis advances `j` only once, so no axis after the repeat is matched |
| TopKOp.BatchRows | src/ops/topk.cc:14-15 | `batch_size = size / depth` divides exactly: it is the product of the dimensions before the last |
| TopKOp.Compute | src/ops/topk.cc:10-34 | For every row i (input at `i*depth`, outputs at `i*k`): k distinct positions in `[0, depth)`, their entries as values in non-increasing order, and every left-out entry no larger than any kept one |
| TopKOp.OneRow | src/ops/topk.cc:20-32 | One row's results are written at `i*k`, and nothing else in the outputs changes |
| TopKOp.FillIota | src/ops/topk.cc:24 | `std::iota`: the row's stretch of `full_indices` holds `0 .. depth-1`, and the rest is unchanged |
| TopKOp.PartialSort | src/ops/topk.cc:25-28 | `std::partial_sort` with `input[i1] > input[i2]`: the positions are rearranged, and the first k are the largest entries, in non-increasing order |
| TopKOp.RankRow | src/ops/topk.cc:24-28 | `iota` then `partial_sort` leave the row's positions partially sorted |
| TopKOp.WriteRow | src/ops/topk.cc:29-32 | `ind[j] = ids[j]` and `val[j] = input[ind[j]]` for j < k give the row's result, and nothing else changes |
| TopKOp.TopOfSorted | src/ops/topk.cc:25-32 | The first k of partially sorted positions, with their entries, are the row's top-k result |
| TopKOp.FirstIsLargest | src/ops/topk.cc:25-31 | The first value of a row is a largest entry of that row |
| VocabMap.ParseLine | src/vocabulary_map.cc:14-37 | The character loop and the trailing token give the line's rule `RuleOf(line)` |
| VocabMap.OneTabRule | src/vocabulary_map.cc:20-37 | For `key<TAB>targets`, the key is everything before the tab, spaces included, and `ngram` is one more than its spaces. The targets are `to_id` of each space-separated piece after the tab, empty pieces included, plus the last piece if non-empty |
| VocabMap.NoTabRule | src/vocabulary_map.cc:20-37 | A line without a tab has the empty key, `ngram` one more than its spaces, and the whole line, if any, as its one target |
| VocabMap.JoinPieces | src/vocabulary_map.cc:24-27 | The pieces the spaces cut after the tab join back, with spaces, to the text |
| VocabMap.PiecesHaveNoSpace | src/vocabulary_map.cc:24-27 | No target piece holds a space |
| VocabMap.Store | src/vocabulary_map.cc:39-42 | Storing a rule grows the table to at least `ngram` levels (never shrinking it), sets the key at level `ngram-1`, and keeps every other entry |
| VocabMap.TableSize | src/vocabulary_map.cc:39-40 | The table has a level for every line's order, and none iff there are no lines |
| VocabMap.TableHoldsLast | src/vocabulary_map.cc:42 | A line whose key and order no later line repeats has its targets in the table: a later duplicate overwrites an earlier one |
| VocabMap.TableFromLines | src/vocabulary_map.cc:42 | Every entry of the table comes from a line with that key and order |
| VocabMap.VocabularyMap.AddRule | src/vocabulary_map.cc:13-43 | One line's rule goes into the table, grown as needed |
| VocabMap.VocabularyMap.AddFixedCandidates | src/vocabulary_map.cc:45-53 | The fixed candidates gain the ids of unk, bos, eos and pad, and the targets of the empty 1-gram key if it has a rule |
| VocabMap.VocabularyMap.constructor | src/vocabulary_map.cc:7-58 | An unopenable file leaves the map empty. Otherwise the table is the lines' rules stored in order, and the fixed candidates are exactly the special ids and the empty key's 1-gram targets. `empty()` holds iff the file could not be opened |
| TranslatorOps.MaxLengthIsMaximum | src/translator.cc:14-20 | No sentence is longer than `max_length`. It is 0 for an empty batch, and otherwise some sentence has that length |
| TranslatorOps.PaddedIdsAt | src/translator.cc:23-29 | Entry `[i, t]` of the id matrix is `to_id(tokens[i][t])` for `t < |tokens[i]|`, and 0 past the sentence's end |
| TranslatorOps.MakeInputs | src/translator.cc:7-32 | `make_inputs`: fresh `lengths` with each sentence's length, the maximum length, and the `[batch, max_length]` id matrix |
| TranslatorOps.NatToString | src/translator.cc:119-121 | `std::to_string`: non-empty decimal digits without a leading zero |
| TranslatorOps.NatToStringValue | src/translator.cc:119-121 | The digits read back as the number |
| TranslatorOps.CheckArguments | src/translator.cc:104-122 | No error iff the options and inputs are acceptable: hypotheses ≤ beam, a vocabulary map when `use_vmap`, min ≤ max length, and with a prefix no attention, one sentence and one prefix. Too many hypotheses always gives its own message, and without a prefix only the first three messages occur |
| TranslatorOps.ForwardPrefix | src/translator.cc:155-168 | The decoder is fed the start token, then each prefix token but the last; sampling goes on from the last |
| TranslatorOps.PrefixFeeding | src/translator.cc:158-167 | Teacher forcing: one decoder step per prefix token. The first step is fed bos and step i is fed `to_id(prefix[i-1])`. The token sampled from is the last prefix token, or bos without a prefix |
| TranslatorOps.AppendTokens | src/translator.cc:212-213 | The hypothesis gets `to_token` of each sampled id appended, in order |
| TranslatorOps.BuildResults | src/translator.cc:202-218 | One result per sentence: its hypotheses, its scores, and its attention when the search gave some for it |
| TranslatorOps.Request | src/translator.cc:127-200 | The search request has a length and a start token per sentence. It is greedy iff `beam_size == 1`. It starts at the step after the prefix, which is forwarded one token per step, and has no candidates unless `use_vmap` |
| TranslatorOps.RequestIds | src/translator.cc:127-133 | The encoder's ids hold each source token's id at its `[i, t]` entry |
| TranslatorOps.Translation | src/translator.cc:91-219 | `translate_batch_with_prefix` fails iff the arguments are not acceptable. Otherwise it gives one result per source sentence |
| TranslatorOps.PrefixLeads | src/translator.cc:209-214 | With a prefix, every hypothesis is the prefix followed by the tokens of the ids sampled for it |
| TranslatorOps.NoPrefixHypotheses | src/translator.cc:209-214 | Without a prefix, every hypothesis is exactly the tokens of the sampled ids |
| TranslatorOps.TranslateBatchWithPrefix | src/translator.cc:91-219 | The step-by-step translation computes `Translation` with the map's `empty()` |
| TranslatorOps.TranslateBatch | src/translator.cc:84-89 | `translate_batch` is the translation with no target prefix |
| TranslatorOps.Translate | src/translator.cc:62-67 | `translate` is the batch of one's only result, or its error |
| TranslatorOps.TranslateWithPrefix | src/translator.cc:69-76 | `translate_with_prefix` is the batch of one's only result, with the prefix, or its error |

## Left out

- The float16-to-float32 cast, numpy's `amax`, the scale division, the in-place `*=` and the float-to-integer casts are not modelled. Their results are parameters (`Numerics`). A zero maximum, which numpy turns into `inf`, is one of their values. Only the structure, the clip bounds and the byte layout are proved.
- `validate` and `quantize` change the owning layers through `setattr`. They are modelled as rewrites of a tree value, so aliasing is not captured: two attributes holding the same Python object are not modelled.
- Attribute names are Python identifiers: unique in a layer and free of "/". `ValidateSpec` and `ValidateIdempotent` require this. Without it, `_split_scope(name)[-1]` does not name the attribute.
- ModelSpec.ValidateSpec: when `validate` raises, the model returns only the message. In the source, the float16 leaves visited before the failing one have already been promoted in place (model_spec.py:48). That partial tree is not modelled.
- ModelSpec.QuantizeFails: when `quantize` raises, the model returns only the message. In the source, the leaves visited before the failing one have already been scaled in place, and their owners already hold `weight` and `weight_scale` (model_spec.py:70, 75, 77-78). That partial tree is not modelled.
- ModelSpec.QuantizeFails: an int16 pass over an integer array whose elements are all zero makes the scale infinite, and converting it to the integer dtype raises. The arithmetic is abstract (`Numerics`), so the model does not see this error.
- `serialize` opens and writes a file. The model returns the byte sequence it writes, or the exception that stops it. Native byte order is taken to be little-endian.
- Split: the `operator()` overloads for two and three outputs and the `std::vector<StorageView*>` overload only forward to the general one, so they are not modelled. Error messages omit their numbers.
- Split: `size_t` arithmetic is not modelled as wrapping. Sizes are natural numbers.
- SplitOp.Apply: it requires the axis to be in range, because the source indexes `dim(axis)` unchecked. It requires at least one output when no sizes are configured, because the source then divides by zero.
- SplitOp.Apply: it requires the input not to be among the outputs, and the outputs to be distinct. The source does not check either. Breaking this would resize a tensor while it is still read or written, which the model does not describe.
- Tensors.StorageView.Resize: it always gives the view fresh storage of the new size. `StorageView::resize` in storage_view.cc is not part of this model, so whether it reuses a large enough buffer is not modelled.
- SplitOp.Apply: the `no_copy` test inside the loop is hoisted into two loops. That is the same behaviour, since the flag does not change.
- TopK: `std::partial_sort` is modelled by selection. It may order equal entries differently, so only the promise of `partial_sort` is stated.
- TopKOp.Compute: it requires `depth > 0` and `k <= depth`, because the source divides by `depth` and sorts `k` of `depth`. The TopK header that sets `k` is not part of this model. Values and indices are integer arrays.
- TopK: the rows run one after the other, not under `#pragma omp parallel for`. Rows write disjoint outputs, so the result is the same.
- Squeeze: `std::sort` is modelled as a pure insertion sort, not sorting in place.
- Vocabulary map: reading the file is not modelled. The file is its sequence of lines, or None when it cannot be opened.
- VocabMap.VocabularyMap.constructor: it requires an opened file to have a line. An empty file leaves `_map_rules` empty, and `_map_rules[0]` at src/vocabulary_map.cc:51 is then undefined behaviour.
- Vocabulary map: `Vocabulary::to_id` and the special tokens are parameters. vocabulary.h is not part of this model.
- Vocabulary map: `get_candidates` is not part of this model.
- Vocabulary map: lines with more than one tab are modelled only by the character loop `Run`. No lemma states their rule.
- Translator: the encoder, the decoder, `greedy_search`, `beam_search`, `get_candidates`, `reduce_vocab` and the transfers to the device are not modelled. The search is a parameter from the request it receives to its output, and it must answer with one entry per sentence.
- Translator: `length_penalty` is passed to beam search and is not modelled.
- Translator: the decoder state forwarded through the prefix is not modelled. Only the tokens fed at each step are.
- Translator: the overloads `translate(tokens)` and `translate_batch(batch_tokens)` use default `TranslationOptions` defined in translator.h, which is not part of this model. The constructors and `make_graph` load the model and are not modelled either.
- TranslatorOps.MakeInputs: the padding past a sentence's end is 0, which the source leaves to the `StorageView` constructor. The `int32_t` truncation of lengths and ids is not modelled.
