# Verified models of the anno sequence labellers, corpus registry and evaluation scripts

This project models, in Dafny, five components of the anno repository whose code carries real
loops, state or arithmetic, and proves what each of them is for.

* **Sequence labelling.** The linear-chain CRF layer (`Crf.dfy`, a class over its parameter
  arrays), the Viterbi decoder of the HMM script (`HmmDecode.dfy`) and the HMM parameter trainer
  (`HmmTrain.dfy`). `LinearChain.dfy` holds the score of a tag sequence and the dynamic programme
  that maximises it; `LogChain.dfy` is that programme over log scores that may be minus infinity. `Partition.dfy` proves that the
  forward recursion is the sum over all tag sequences, `Masking.dfy` says what padding does, and
  `Bio.dfy` says when the transition penalties force well-formed BIO output.
* **Corpus registry.** `Registry.dfy` is the state machine over the SQLite tables, one relation per
  operation; `CorpusStore.dfy` is the store as a class that updates its tables in place, each
  method proved to take the corresponding step. `Roots.dfy`, `Aliases.dfy`, `Decimal.dfy` and
  `Ids.dfy` model path normalisation, alias numbering and the strings hashed into ids.
* **Elgold parser.** `Elgold.dfy` models the scan for `{{mention|class|target}}`, the running
  offset adjustment and the validation loop.
* **Handshaking kernel.** `Handshake.dfy` models the upper-triangle enumeration and the closed
  index formula.
* **Aggregation.** `MuxerAgg.dfy` models the keyed fold over JSONL logs and its statistics,
  `JsonlMerge.dfy` the max-merge of evaluation results.

`Wrappers.dfy` holds the shared Option and Result types. `dafny verify dfyconfig.toml` checks
everything.

## How the model relates to the code

* Floating-point numbers are exact reals. Exponential and logarithm are parameters that satisfy the
  usual laws (`Partition.Laws`, `HmmDecode.LogLaws`); the square root likewise (`MuxerAgg.Laws`).
* The hash functions (name-based UUIDs, section 5.5 of RFC 9562, and SHA-256), Unicode case and
  character classes, white-space stripping, JSON parsing, dataset metadata and vector arithmetic
  are parameters too. Nothing is assumed of them except where a lemma says so: the JSONL merge
  assumes that what a line decodes to can be encoded and decoded again (`JsonlMerge.Laws`), and of new rows that they
  can be (`JsonlMerge.Encodes`); it does not assume that every real number has a text. The registry does not assume that the hash is
  injective, since no hash into finitely many ids can be; what depends on it is stated with the
  condition `Registry.NoCollision`, on the roots at hand.
* The batch dimension is dropped: the CRF is modelled on one row, and `collate_fn` on the whole
  batch.
* Where a maximum is tied, the decoders take the first index, as `np.argmax` does. PyTorch promises
  no order for `max`; only the results on ties (`EarlierTagLoses`, `DecodeTakesFirst`) and the BIO
  bound of the decoder at exactly 2000 depend on the choice.
* A run of the registry is a sequence of states in which every step satisfies `Registry.Step`.
  Where SQL leaves an order open (`LIMIT 1` without order) the step leaves it open too.

## What the proofs found

* `decode` appends to its history whatever the mask is (scripts/train_bilstm_crf.py:207). On a padded row the
  backtrack therefore walks over the padded positions too. The token part of the result is optimal
  for every row and every padding exactly when the weights satisfy `Masking.PadSafe`: no tag is
  better reached from another one, end weights set off, than from itself. Training does not see to
  that, and `evaluate` decodes padded rows (scripts/train_bilstm_crf.py:310-324).
  `Bio.PaddedDecodeCanBeWorse` is a penalised layer over the twelve tags, with all other weights
  within one, on which the token of a padded row is decoded wrongly.
* The BIO penalties make every optimal sequence well-formed exactly for weights below 2000 in
  absolute value, at any sentence length, because one bad tag can be repaired at the cost of five
  weights. A decoder that takes the first of tied tags is well-formed up to 2000 inclusive and not
  beyond: the repaired tag comes first. On a padded row this holds of the tokens too, whatever the padded
  emissions are: padding can cost optimality, never well-formedness.
* The length-bucket table of a state is a distribution exactly when the 1e-12 floor is inactive for
  that state; its entries are positive, and the Boolean probabilities proper, in any case.
* The automatic alias is fresh unless the largest number in use is 2^63 - 1 and the wrapped alias
  is taken; the addition is modelled as in a release build, where it wraps. Two operations can then
  be refused and still change the registry, since their statements are not in one transaction: a
  registration, which leaves its row without alias unless the row was there with the same raw root
  and profiles, and an opening, which numbers the rows there is still room for before it fails. `Registry.RefusalsAreReached` is a run from the
  empty registry, over any four roots, that ends in both.
* `normalize_path` is not idempotent when its result ends in white space, because slashes are
  trimmed after white space: "a /" becomes "a ". One pass settles a path exactly when what stands before its
  trailing separators is not white space; otherwise a further pass shortens or rejects it, so passes end.
* The strings hashed into object, part and revision ids determine their parts exactly when no free
  part contains U+001F.
* `append_jsonl` keeps the last of several rows with one key in the old file, not the best; the merge
  is a maximum over all rows exactly when no earlier duplicate beats the last one and the new rows.
* Result keys tell backend, dataset and seed apart when the first two hold no `|`; otherwise different
  rows can share a key.

## Model

| member | source | states |
|---|---|---|
| LinearChain.ArgBestIsMax | scripts/train_bilstm_crf.py:205 | the predecessor chosen by the max over a row is a maximum, and the first one |
| LinearChain.MaxCell | scripts/train_bilstm_crf.py:200-208 | one step's value for a tag is attained through its back-pointer and is at least the value through any other predecessor |
| LinearChain.BestIsUpperBound | scripts/train_bilstm_crf.py:193-211 | no tag sequence's score up to a position exceeds the column entry of its last tag |
| LinearChain.BestPathAttains | scripts/train_bilstm_crf.py:213-223 | the sequence spelled by the back-pointers attains exactly the column entry it starts from |
| LinearChain.OptimalIffLastTag | scripts/train_bilstm_crf.py:193-223 | a back-traced sequence is one no other sequence beats exactly when its last tag maximises the final scores |
| Partition.PartitionIsSumOverTaggings | scripts/train_bilstm_crf.py:170-191 | the exponential of the forward score is the sum of the exponentiated sentence scores over all tag sequences of the row |
| Partition.EachTaggingOnce | scripts/train_bilstm_crf.py:170-191 | that sum contains each tag sequence exactly once |
| Partition.LossIsNonNegative | scripts/train_bilstm_crf.py:141-150 | the forward score is at least the score of any tag sequence, so the loss of a row is never negative |
| Masking.GoldIgnoresPadding | scripts/train_bilstm_crf.py:152-168 | with k ones then zeros, the gold score is that of the row cut to k, whatever the padded tags and emissions are |
| Masking.ForwardIgnoresPadding | scripts/train_bilstm_crf.py:170-191 | with k ones then zeros, the forward score is that of the row cut to k |
| Masking.DecodeIsOptimal | scripts/train_bilstm_crf.py:193-223 | with an all-ones mask the decoded sequence is full-length and no tag sequence scores higher |
| Masking.PaddedDecodeIsOptimalIff | scripts/train_bilstm_crf.py:193-223 | the token part of every padded row is optimal, for all emissions, masks and lengths, exactly when the weights are safe |
| Masking.UnsafePaddingFails | scripts/train_bilstm_crf.py:193-223 | for any weights that are not safe there are emissions of one token and one padded position whose token part is not optimal |
| Masking.DecodeTakesFirst | scripts/train_bilstm_crf.py:205-223 | a sequence that differs from the decoded one by an earlier tag at one position scores strictly less |
| LinearChain.EarlierTagLoses | scripts/train_bilstm_crf.py:205-223 | the same for any sequence traced back from the first best final tag |
| Bio.WellFormedByName | scripts/train_bilstm_crf.py:124-139 | the index tables of allowed starts and steps agree with the tag names: no sequence starts with I-, and I-X follows B-X or I-X |
| Bio.Repair | scripts/train_bilstm_crf.py:124-139 | repairing the last bad tag of a sequence gains at least 10000 less five weights |
| Bio.OptimalIsWellFormed | scripts/train_bilstm_crf.py:124-139 | with penalties of at most -10000 and all other weights within b below 2000, every optimal sequence of any length is well-formed BIO |
| Bio.OptimalIsWellFormedIff | scripts/train_bilstm_crf.py:124-139 | a bound b guarantees this for all weights, emissions and optimal sequences exactly if it is below 2000 |
| Bio.DecodeIsWellFormed | scripts/train_bilstm_crf.py:193-223 | with all other weights and the emissions of the tokens within b of at most 2000 the decoded tokens of every row, padded or not, are well-formed by tag name |
| Bio.DecodeIsWellFormedIff | scripts/train_bilstm_crf.py:193-223 | a bound b guarantees this for all weights, rows and paddings exactly if it is at most 2000 |
| Bio.PadWalkHolds | scripts/train_bilstm_crf.py:217-220 | walking back over padding, an I- tag reached scores within 2b of every tag at the last token and above its B- tag less 2b |
| Bio.TracedIsWellFormed | scripts/train_bilstm_crf.py:193-223 | a sequence traced back from such a tag is well-formed |
| Bio.InsideCanBeOptimal | scripts/train_bilstm_crf.py:124-139 | for every bound from 2000 on there are weights within it under which I-PER alone is optimal |
| Bio.BoundIsTight | scripts/train_bilstm_crf.py:124-139 | for every bound above 2000 there are weights within it whose decoded sequence is not well-formed |
| Bio.PaddedDecodeCanBeWorse | scripts/train_bilstm_crf.py:207 | a penalised twelve-tag layer and a padded row, all free weights within one, whose token is decoded to a tag that is not optimal |
| Crf.Layer.constructor | scripts/train_bilstm_crf.py:110-122 | the parameters are the given random ones with every I- start and every forbidden transition overwritten by the penalty, so a layer over the twelve tags is penalised |
| Crf.Layer.InitConstraints | scripts/train_bilstm_crf.py:124-139 | exactly the I- starts and the forbidden transitions are overwritten in place |
| Crf.ConstraintsPenalise | scripts/train_bilstm_crf.py:124-139 | the initial parameters satisfy the penalty condition of the BIO theorem |
| Crf.Layer.ScoreSentence | scripts/train_bilstm_crf.py:152-168 | the loop computes the masked gold score |
| Crf.Layer.ForwardAlgorithm | scripts/train_bilstm_crf.py:170-191 | the loop computes the masked forward score |
| Crf.Layer.Forward | scripts/train_bilstm_crf.py:141-150 | the loss of a padded row is the partition of its tokens less their score, is never negative, and times the gold weight gives the sum over all tag sequences of the tokens |
| Crf.Layer.Backtrack | scripts/train_bilstm_crf.py:213-223 | appending the best tags from the last one down and reversing gives the sequence the history spells |
| Crf.Layer.Decode | scripts/train_bilstm_crf.py:193-223 | the loops yield the specified decoding; its tokens are optimal without padding or under safe weights, and well-formed on every row of a penalised layer with weights within 2000 |
| Crf.Collate | scripts/train_bilstm_crf.py:86-104 | every row holds its words and tags followed by padding up to the longest row, and its mask is that of its length exactly if none of its words is the padding index |
| Crf.MaskOfPaddedRow | scripts/train_bilstm_crf.py:86-104 | the mask of a padded row is ones over the tokens and zeros after exactly if none of its words is the padding index |
| LogChain.BestIsUpperBound | scripts/train_hmm_weights.py:256-281 | no path's log score, which may be minus infinity, exceeds the cell of its last state |
| LogChain.BestPathAttains | scripts/train_hmm_weights.py:283-294 | the path spelled by the back-pointers attains exactly the cell it starts from |
| LogChain.DecodedIsBest | scripts/train_hmm_weights.py:283-294 | no path of the same length beats the one traced back from the first best final state |
| HmmDecode.BackedOffIsMax | scripts/train_hmm_weights.py:246-251 | the backed-off emission probability is the largest of the smoothing value and the entries of the word's features |
| HmmDecode.EmissionLog | scripts/train_hmm_weights.py:258-268 | the feature loop computes the log emission score of a word in a state |
| HmmDecode.BestPredecessor | scripts/train_hmm_weights.py:270-278 | the inner loop, from minus infinity, finds the first best predecessor and its score |
| HmmDecode.FillCell | scripts/train_hmm_weights.py:258-281 | one cell of both tables is filled and no other cell changes |
| HmmDecode.Decode | scripts/train_hmm_weights.py:222-294 | no words give no path; otherwise the tables and the backtrack give the specified path of state names, which is a most probable one |
| HmmDecode.Backtrack | scripts/train_hmm_weights.py:283-294 | from filled tables, following the back-pointers and reversing gives that path |
| HmmDecode.LogProbIsScore | scripts/train_hmm_weights.py:253-278 | the log probability of a path under the model, minus infinity if it starts with probability zero, is its score in the chain |
| HmmDecode.DecodedIsMostProbable | scripts/train_hmm_weights.py:222-294 | the decoded path has one state per word and at least the log probability of every path of that length |
| HmmDecode.EmitIsWordProb | scripts/train_hmm_weights.py:258-266 | a word's probability is its entry in the state's table, and for an absent word the largest of smoothing and the entries of its features |
| HmmDecode.LogProbIsLog | scripts/train_hmm_weights.py:253-278 | the score of a path of state names is the logarithm of the product of the initial entry, the floored entries under from->to of neighbouring names and the floored word probabilities |
| HmmDecode.DecodedMaximises | scripts/train_hmm_weights.py:222-294 | the decoded names are a path of states whose product no other path of the same length exceeds |
| HmmTrain.NormalizeIsDistribution | scripts/train_hmm_params.py:93-97 | positive weights normalise to strictly positive numbers that sum to one |
| HmmTrain.TrainInitialAndTransitions | scripts/train_hmm_params.py:100-117 | the counting loops yield the normalised smoothed counts of first tags and of tag steps |
| HmmTrain.TablesAreDistributions | scripts/train_hmm_params.py:100-117 | with positive smoothing the initial vector and every transition row are strictly positive and sum to one, whatever the data |
| HmmTrain.IndexOfIsLast | scripts/train_hmm_params.py:101-112 | a tag's index is its last position among the labels, and 0 if it is not there |
| HmmTrain.StandsForIff | scripts/train_hmm_params.py:101-112 | a position is a tag's index exactly if it is the tag's last one among the labels, or the first one for a tag that is no label |
| HmmTrain.InitCountIs | scripts/train_hmm_params.py:106-109 | the initial count of a state is the number of sequences whose first tag it stands for |
| HmmTrain.StepCountIs | scripts/train_hmm_params.py:110-113 | the step count from one state to another is the number of places where a tag of the first is followed by a tag of the second |
| HmmTrain.NormalizeIsShare | scripts/train_hmm_params.py:93-97 | every normalised entry is its share of a positive sum |
| HmmTrain.WordFeatures | scripts/train_hmm_params.py:47-83 | one length bucket, then the word's Boolean features in list order |
| HmmTrain.FeatureListedOnce | scripts/train_hmm_params.py:70-83 | each feature is listed once if the word has it and never otherwise |
| HmmTrain.BucketIff | scripts/train_hmm_params.py:56-68 | the bucket chosen is the one whose name says the length of the word |
| HmmTrain.HasIff | scripts/train_hmm_params.py:50-82 | the features listed are those whose names say what is in the word |
| HmmTrain.TrainBackoffFeatures | scripts/train_hmm_params.py:119-173 | the counting loops yield the smoothed bucket and feature probabilities of every state |
| HmmTrain.DataIs | scripts/train_hmm_params.py:140-141 | the tokens counted are the zipped sentences one after the other |
| HmmTrain.StateCountIs | scripts/train_hmm_params.py:142-143 | the count of a state is the number of tokens whose tag it stands for |
| HmmTrain.LenCountIs | scripts/train_hmm_params.py:144-148 | the count of a bucket and state is the number of those tokens of that length |
| HmmTrain.BoolCountIs | scripts/train_hmm_params.py:149-153 | the count of a feature and state is the number of those tokens that have it |
| HmmTrain.BucketsPartitionTokens | scripts/train_hmm_params.py:141-149 | a state's bucket counts add up to its token count |
| HmmTrain.BoolAtMostState | scripts/train_hmm_params.py:141-153 | a feature count never exceeds the token count of its state |
| HmmTrain.LenTableIsDistributionIff | scripts/train_hmm_params.py:155-162 | a state's bucket table is strictly positive, and sums to one exactly when the floor on its denominator is inactive |
| HmmTrain.BoolProbIsProper | scripts/train_hmm_params.py:164-171 | every Boolean feature probability lies strictly between zero and one |
| HmmTrain.BoolProbIsShare | scripts/train_hmm_params.py:164-171 | above the floor it is the smoothed share of the tokens that have the feature, and its complement that of those that have not |
| HmmTrain.LenProbIsShare | scripts/train_hmm_params.py:155-162 | above the floor a bucket probability is the smoothed share of the tokens of that length |
| Roots.NormalizeIsNormal | crates/anno-corpus-core/src/root.rs:31-38 | an accepted path is non-empty and has no backslash, ASCII capital, leading white space or trailing slash |
| Roots.NormalizeKeepsCore | crates/anno-corpus-core/src/root.rs:31-38 | it is the input without outer white space and then without trailing separators, all of them, mapped character by character; a path with nothing left is rejected |
| Roots.AcceptedIffCut | crates/anno-corpus-core/src/root.rs:31-38 | a path is accepted exactly if those cuts leave something |
| Roots.OnePassSettlesIff | crates/anno-corpus-core/src/root.rs:31-38 | another pass changes nothing exactly if what stands before the trailing separators of the path is not white space |
| Roots.SlashAfterSpace | crates/anno-corpus-core/src/root.rs:31-38 | "a /" takes two passes |
| Roots.NormalizeAgain | crates/anno-corpus-core/src/root.rs:31-38 | it is a fixed point exactly when it does not end in white space; otherwise another pass shortens or rejects it |
| Roots.SettleIsFixed | crates/anno-corpus-core/src/root.rs:31-38 | repeated passes end in a rejection or a fixed point |
| Roots.SharedPathMeansOverlap | crates/anno-corpus-core/src/root.rs:40-49 | two roots overlap exactly when some path lies inside both |
| Roots.InsideIffComponents | crates/anno-corpus-core/src/root.rs:40-49 | a path lies inside a root exactly if its components between slashes begin with those of the root |
| Aliases.NextAliasIsFresh | crates/anno-corpus-store/src/store.rs:176-198 | the next alias is unused whatever aliases are present, except exactly when the largest number is 2^63 - 1 and the wrapped alias is taken |
| Aliases.NextAliasIsNewMax | crates/anno-corpus-store/src/store.rs:116-126 | taking the next alias raises the largest number by one |
| Aliases.TakingUsesRoom | crates/anno-corpus-store/src/store.rs:116-126 | while a number or the wrapped alias is left the next alias is unused, and taking it uses up exactly one place |
| Aliases.NumberedIff | crates/anno-corpus-store/src/store.rs:116-126 | the aliases that count are the stem followed by a digit and anything |
| Aliases.SuffixReads | crates/anno-corpus-store/src/store.rs:116-126 | their number is written by the digits after the stem, up to the 64-bit maximum, whatever follows the digits |
| Decimal.PrintRoundTrip | crates/anno-corpus-store/src/store.rs:125 | the number printed with at least two digits parses back to itself |
| Ids.HexInjective | crates/anno-corpus-core/src/ids.rs:90-98 | different byte strings have different hexadecimal texts |
| Ids.HexLower | crates/anno-corpus-core/src/ids.rs:90-98 | the loop writes two lower-case digits per byte, high half first |
| Ids.HexAt | crates/anno-corpus-core/src/ids.rs:90-98 | the digits of every byte stand at its place, the high half first |
| Ids.JoinInjective | crates/anno-corpus-core/src/ids.rs:86-88 | joined strings of as many parts determine the parts when all but the last are free of the separator |
| Ids.UnambiguousIffSepFree | crates/anno-knowledge-core/src/ids.rs:82-85 | a joined string of two or more parts has one reading exactly when no part contains the separator |
| Ids.CorpusKeysInjective | crates/anno-corpus-core/src/ids.rs:36-84 | the strings hashed for corpora and document instances never coincide and determine all their parts, whatever the paths contain |
| Ids.CorpusTexts | crates/anno-corpus-core/src/ids.rs:36-84 | the strings hashed for corpora and document instances are the word and the parts in order, with the separator between |
| Ids.CollisionIff | crates/anno-knowledge-core/src/ids.rs:87-165 | two id constructors build the same string exactly when tag and fixed parts agree and the free parts join to the same text |
| Ids.PreimageText | crates/anno-knowledge-core/src/ids.rs:87-165 | the string hashed for each kind of id is its word and its parts in order |
| Ids.KeysInjective | crates/anno-knowledge-core/src/ids.rs:87-165 | they determine constructor and parts when all free parts but the last are free of the separator |
| Ids.SingleFreePartInjective | crates/anno-knowledge-core/src/ids.rs:87-165 | source, account, scope and chunk strings determine their parts unconditionally |
| Ids.ReadableIffSepFree | crates/anno-knowledge-core/src/ids.rs:119-152 | object, part and revision strings determine their parts exactly when no free part contains the separator |
| Registry.StepKeepsInv | crates/anno-corpus-store/src/store.rs:105-573 | every operation keeps: ids are the hash of their root, roots are pairwise apart, aliases distinct, references intact |
| Registry.RunKeepsInv | crates/anno-corpus-store/src/store.rs:105-573 | so every state of every run has them |
| Registry.UniqueOwner | crates/anno-corpus-store/src/store.rs:141-154 | in every state reachable from the empty registry a path lies inside at most one registered root |
| Registry.FailureChangesNothingIff | crates/anno-corpus-store/src/store.rs:92-573 | a refused operation changes the tables exactly if the state before says so: a registration that the alias index refuses and whose row is new or differs in raw root or profiles, or an opening outside the exhausted state |
| Registry.RegisterHitsIndexIff | crates/anno-corpus-store/src/store.rs:176-199 | registration is refused by the alias index exactly for a corpus without alias in the exhausted state |
| Registry.StepKeepsAliased | crates/anno-corpus-store/src/store.rs:131-206 | every corpus goes on having an alias after any step, except exactly after that refusal |
| Registry.RunKeepsAliased | crates/anno-corpus-store/src/store.rs:105-206 | over a run that never reaches the exhausted state every corpus has an alias after every step |
| Registry.RegisterEffect | crates/anno-corpus-store/src/store.rs:132-206 | a successful registration adds or refreshes that corpus only, keeps its earlier alias, bindings, documents and sync row, and holds that root exactly if the hash does not confuse it with another |
| Registry.RegisterWrites | crates/anno-corpus-store/src/store.rs:158-199 | it writes the raw root and profiles, keeps an alias the corpus had, and otherwise gives it the one after the largest number in use |
| Registry.RegisterAnswers | crates/anno-corpus-store/src/store.rs:132-206 | an empty path is refused; otherwise an overlap is reported exactly if some other registered root overlaps, and names such a root and changes nothing |
| Registry.RegisterDoneIff | crates/anno-corpus-store/src/store.rs:132-206 | registration succeeds exactly if every registered root is the same or apart, and the corpus has an alias or one is left |
| Registry.RegisteredIsDone | crates/anno-corpus-store/src/store.rs:141-206 | in any state with the invariants a root that is registered under an alias can be registered again, which changes its raw root and profiles only |
| Registry.RegisterAgain | crates/anno-corpus-store/src/store.rs:141-206 | so a second registration of a root succeeds after the first, and keeps alias and all other rows |
| Registry.AliasIsFound | crates/anno-corpus-store/src/store.rs:415-434 | after an alias has been set, looking it up answers that corpus and nothing else |
| Registry.SetAliasFrame | crates/anno-corpus-store/src/store.rs:415-423 | renaming succeeds exactly for a known corpus and an alias no other has, and changes that alias only |
| Registry.AddBindingFrame | crates/anno-corpus-store/src/store.rs:209-233 | adding a binding succeeds exactly for a known corpus, and writes the row of its key and no other |
| Registry.AddDocumentFrame | crates/anno-corpus-store/src/store.rs:261-294 | the same for a document |
| Registry.PutSyncFrame | crates/anno-corpus-store/src/store.rs:535-573 | the same for a sync row |
| Registry.StepKeepsOtherRows | crates/anno-corpus-store/src/store.rs:105-573 | no operation changes a binding, document or sync row that its arguments do not name |
| Registry.BindingPersists | crates/anno-corpus-store/src/store.rs:209-233 | over any run a binding stays as it is until its key is written or its corpus deleted |
| Registry.DocumentPersists | crates/anno-corpus-store/src/store.rs:261-328 | so does a document |
| Registry.SyncPersists | crates/anno-corpus-store/src/store.rs:535-573 | so does a sync row |
| Registry.CorpusPersists | crates/anno-corpus-store/src/store.rs:105-573 | over any run a corpus keeps its root and label until deleted and its alias until renamed |
| Registry.BoundCorpusIsFound | crates/anno-corpus-store/src/store.rs:209-233 | after a binding has been added its owner is found, unless exactly when another corpus has the same binding, which is reported as several |
| Registry.DeleteUndoesRegister | crates/anno-corpus-store/src/store.rs:505-512 | deleting a newly registered corpus restores the state before |
| Registry.DeleteRemovesAll | crates/anno-corpus-store/src/migrations.rs:23-64 | deletion cascades to every row that refers to the corpus |
| Registry.DeleteKeepsOthers | crates/anno-corpus-store/src/migrations.rs:23-64 | deletion keeps every row of every other corpus as it was |
| Registry.BackfillNumbers | crates/anno-corpus-store/src/store.rs:115-128 | from any row on, the backfill gives consecutive aliases after the largest number to as many rows as there are places for, changes nothing else, and is refused exactly if a row is left |
| Registry.ReopenNumbers | crates/anno-corpus-store/src/store.rs:92-129 | so opening numbers the first rows as far as the places go, in order, and succeeds exactly if that is all of them |
| Registry.ReopenDoneIff | crates/anno-corpus-store/src/store.rs:92-129 | opening succeeds exactly if the largest number plus the rows without alias is at most 2^63 - 1, or is 2^63 while the wrapped alias is free |
| Registry.RefusedReopenChangesNothingIff | crates/anno-corpus-store/src/store.rs:115-128 | a refused opening leaves the tables as they were exactly in the exhausted state |
| Registry.RefusalsAreReached | crates/anno-corpus-store/src/store.rs:92-206 | from the empty registry, any four roots apart give a run in which a registration and then an opening are refused and change the tables |
| Registry.RefusedReopen | crates/anno-corpus-store/src/store.rs:115-128 | with some places left but fewer than rows, an opening is refused and changes the tables |
| Registry.RegisterNew | crates/anno-corpus-store/src/store.rs:132-206 | a new root apart from all others gets the next alias, or in the exhausted state a row without one and a refusal |
| Registry.RootIndexNeverRefuses | crates/anno-corpus-store/src/migrations.rs:16 | under the invariants the insert never meets the unique index on roots: a row that holds the root has the id inserted, and no two rows share a root before or after |
| Registry.ReopenSettles | crates/anno-corpus-store/src/store.rs:92-129 | every corpus has an alias after opening exactly if opening succeeded, and then opening again changes nothing |
| Registry.RecordedPathIsFound | crates/anno-corpus-store/src/store.rs:353-371 | after a path is recorded the lookup by document returns it, even when other backends stored another path |
| Registry.RecordedDocumentIsFound | crates/anno-corpus-store/src/store.rs:331-348 | the reverse lookup can only return that document exactly when no other document of the corpus carries the path |
| Registry.PathAnswerMeans | crates/anno-corpus-store/src/store.rs:353-371 | the lookup by document answers none exactly if no row of the document has a path, and otherwise one of their paths, that of the legal row if it has one |
| Registry.DocumentAnswerMeans | crates/anno-corpus-store/src/store.rs:331-348 | the lookup by path answers none exactly if no row of the corpus has the path, and otherwise a document that has |
| Registry.RecordPathFrame | crates/anno-corpus-store/src/store.rs:305-328 | no row but the legal one of the document appears or changes; that one appears with nothing but the path, or keeps all but its path |
| Registry.RecordedPathPersists | crates/anno-corpus-store/src/store.rs:305-371 | over any further run that does not touch that row, the lookup goes on returning the path |
| CorpusStore.Store.RegisterRoot | crates/anno-corpus-store/src/store.rs:132-206 | the scan for overlaps, the upsert and the alias update take the registration step and return the id and root |
| CorpusStore.Store.BackfillAliases | crates/anno-corpus-store/src/store.rs:115-128 | the update loop is the specified backfill, stopping at the first refusal |
| CorpusStore.Store.UnaliasedIds | crates/anno-corpus-store/src/store.rs:106-114 | lists the corpora without alias, each once |
| CorpusStore.Store.MaxAliasSuffix | crates/anno-corpus-store/src/store.rs:116-122 | the largest number among the numbered aliases, 0 if there are none |
| CorpusStore.Store.Open | crates/anno-corpus-store/src/store.rs:92-103 | opening a registry that satisfies the invariants takes the backfill step and keeps them |
| CorpusStore.Store.SetAlias | crates/anno-corpus-store/src/store.rs:415-423 | refuses an unknown corpus and an alias another corpus holds, otherwise writes it |
| CorpusStore.Store.LookupByAlias | crates/anno-corpus-store/src/store.rs:426-434 | finds the one corpus with the alias, or none if there is none |
| CorpusStore.Store.AddBinding | crates/anno-corpus-store/src/store.rs:209-233 | refuses an unknown corpus, otherwise inserts or replaces the row of that key |
| CorpusStore.Store.AddDocument | crates/anno-corpus-store/src/store.rs:261-294 | refuses an unknown corpus, otherwise inserts or replaces the row with the hashes of the paths |
| CorpusStore.Store.RecordDocumentPath | crates/anno-corpus-store/src/store.rs:305-328 | refuses an unknown corpus, otherwise inserts a minimal row or updates the path of the existing one |
| CorpusStore.Store.RelativePathByDocumentId | crates/anno-corpus-store/src/store.rs:353-371 | answers with a stored path, that of the legal backend if it has one, and with none only if no row has one |
| CorpusStore.Store.DocumentIdByRelativePath | crates/anno-corpus-store/src/store.rs:331-348 | answers with some document that carries the path, and with none only if there is none |
| CorpusStore.Store.CorpusForBinding | crates/anno-corpus-store/src/store.rs:477-502 | answers with the owner if there is exactly one, and tells none from several |
| CorpusStore.Store.DeleteCorpus | crates/anno-corpus-store/src/store.rs:505-512 | deletes the corpus and, by cascade, the rows that refer to it |
| CorpusStore.Store.UpsertSyncState | crates/anno-corpus-store/src/store.rs:535-573 | refuses an unknown corpus, otherwise writes its sync row |
| Elgold.MatchAtIsComplete | scripts/download_elgold.py:181-182 | the greedy reading of the pattern finds the one match at its position |
| Elgold.FirstMatchIsLeftmost | scripts/download_elgold.py:188 | the scan misses no match: the first one found starts no later than any other from there on |
| Elgold.Parse | scripts/download_elgold.py:184-219 | the loop stores one annotation per match, with start and end moved by the markup removed so far, and the stripped text |
| Elgold.StoredRecovers | scripts/download_elgold.py:193-211 | the stored offsets recover the mention from the stripped text |
| Elgold.StoredOrdered | scripts/download_elgold.py:193-208 | stored spans follow one another without overlap |
| Elgold.StrippedLength | scripts/download_elgold.py:206-211 | the stripped text is shorter than the raw text by exactly the markup removed |
| Elgold.StoredMarkup | scripts/download_elgold.py:188-204 | the raw text of every match is the markup of its stored mention, of a text whose upper case is the stored class, and of one that strips to the stored target |
| Elgold.WrittenIsParsed | scripts/download_elgold.py:184-219 | a document written as plain text and markup in turn is parsed back to its plain text and exactly its annotations, in order and at their places |
| Elgold.Validate | scripts/download_elgold.py:353-380 | validation returns the findings of all documents and annotations, class before mention, in order, and succeeds exactly if there are none |
| Elgold.AcceptedIff | scripts/download_elgold.py:353-380 | there are none exactly if every annotation has a known class and its slice of the text is its mention |
| Elgold.FoundIff | scripts/download_elgold.py:353-380 | a finding is reported exactly if some annotation has that unknown class, or that span and mention with another slice of the text |
| Elgold.SliceElsewhere | scripts/download_elgold.py:364 | slice bounds below zero count from the end, and bounds outside the text are moved to its edge |
| Elgold.SoundDocumentsHaveNoMismatch | scripts/download_elgold.py:363-369 | documents whose stored spans recover their mentions yield no mismatch finding |
| Elgold.ParsedIsSound | scripts/download_elgold.py:184-219 | whatever the raw text, the stored spans of a parsed document recover their mentions |
| Handshake.IndexIsPosition | scripts/export_tplinker_onnx.py:23-24 | the closed formula is the position of the pair in the row-major upper triangle |
| Handshake.PositionHasPair | scripts/export_tplinker_onnx.py:86-89 | every position below L(L+1)/2 is the index of a pair |
| Handshake.LengthIsTriangular | scripts/export_tplinker_onnx.py:84-89 | the enumeration has L(L+1)/2 entries |
| Handshake.IndexIsMonotone | scripts/export_tplinker_onnx.py:23-24 | indices are ordered exactly as their pairs are lexicographically, so different pairs have different indices |
| Handshake.ForwardAtIndex | scripts/export_tplinker_onnx.py:78-104 | the kernel's output at a pair's index combines the hidden vectors of that pair |
| MuxerAgg.Task | crates/anno-eval/src/muxer_agg_lib.rs:68-70 | what it keeps of a slice name is the part before the first dot, and all of it if there is none |
| MuxerAgg.AggregateJsonlPaths | crates/anno-eval/src/muxer_agg_lib.rs:73-160 | the error of the first unreadable file, or the report on all lines of all files |
| MuxerAgg.LineIsRead | crates/anno-eval/src/muxer_agg_lib.rs:84-86 | every line of every file is read, in order |
| MuxerAgg.InGroupIff | crates/anno-eval/src/muxer_agg_lib.rs:98-133 | the lines of a group are the outcome lines whose record has its task, language, domain and backend |
| MuxerAgg.SameGroupIff | crates/anno-eval/src/muxer_agg_lib.rs:107-133 | two outcome lines fall into one group exactly if they agree on task, language, domain and backend |
| MuxerAgg.GroupsAreOfLines | crates/anno-eval/src/muxer_agg_lib.rs:133-181 | the groups reported are exactly those some outcome line belongs to |
| MuxerAgg.TallyIgnoresOrder | crates/anno-eval/src/muxer_agg_lib.rs:84-160 | the counters and every group's totals depend only on the multiset of lines |
| MuxerAgg.ReportIgnoresOrderAndSplit | crates/anno-eval/src/muxer_agg_lib.rs:73-160 | so does the whole report, whatever the order and the split into files |
| MuxerAgg.ReportConserves | crates/anno-eval/src/muxer_agg_lib.rs:84-145 | group sizes add up to the outcome lines, which are at most the parsed and these at most the total lines; every sub-count is at most its group's size |
| MuxerAgg.CountsAreOfLines | crates/anno-eval/src/muxer_agg_lib.rs:84-145 | every counter and every count of a group is the number of lines it is named for |
| MuxerAgg.ReportCountsLines | crates/anno-eval/src/muxer_agg_lib.rs:163-198 | the counters reported are those numbers |
| MuxerAgg.RowCountsLines | crates/anno-eval/src/muxer_agg_lib.rs:163-181 | and so are the counts of every reported row |
| MuxerAgg.MomentsAreOfReadings | crates/anno-eval/src/muxer_agg_lib.rs:146-160 | the running sums are those of the group's readings |
| MuxerAgg.VarianceIsMeanSquaredDeviation | crates/anno-eval/src/muxer_agg_lib.rs:49-59 | the variance is the mean squared distance of the readings from their mean, so the clamp at zero never acts, and n times the sum of squares is at least the square of the sum |
| MuxerAgg.RowsDescribeReadings | crates/anno-eval/src/muxer_agg_lib.rs:163-195 | every row's mean, deviation and standard error are those of its group's readings, metric by metric |
| JsonlMerge.LoadJsonl | scripts/spot/aggregate.py:180-191 | a missing file is empty; blank and malformed lines are skipped |
| JsonlMerge.RowsAreOfLines | scripts/spot/aggregate.py:185-191 | the rows loaded are what the lines that are neither blank nor malformed decode to, in order |
| JsonlMerge.SameKeyIff | scripts/spot/aggregate.py:194-196 | without bars in backend and dataset, rows have one key exactly if they agree on backend, dataset and seed, missing ones counting as their defaults |
| JsonlMerge.BarsConfuse | scripts/spot/aggregate.py:194-196 | with a bar different rows can have one key |
| JsonlMerge.AppendJsonl | scripts/spot/aggregate.py:199-226 | the dictionary loops yield the specified file and count the keys added |
| JsonlMerge.MergedEncodes | scripts/spot/aggregate.py:199-226 | whatever the file held, every row a run writes has a line that decodes to it, if the new rows have |
| JsonlMerge.LawsCanBeMet | scripts/spot/aggregate.py:188-224 | for any two rows some library obeys the law and has lines for both |
| JsonlMerge.ReloadIsSame | scripts/spot/aggregate.py:221-224 | writing such rows and loading them again gives the same rows in the same order |
| JsonlMerge.OneRowPerKey | scripts/spot/aggregate.py:199-226 | whatever the file held, afterwards it has one row per key |
| JsonlMerge.RunKeepsBest | scripts/spot/aggregate.py:208-219 | each key ends with the largest F1 of its earlier entry and all its new rows |
| JsonlMerge.RunKeepsRow | scripts/spot/aggregate.py:208-219 | the row kept is the earlier entry unless a new row scores higher, and then the first of the best new rows |
| JsonlMerge.RunKeepsBestOfAllIff | scripts/spot/aggregate.py:199-226 | that is the largest of all rows, old and new, exactly when no earlier duplicate in the file beats both the last one and the new rows |
| JsonlMerge.RunKeepsBestOfAll | scripts/spot/aggregate.py:199-226 | with one row per key in the file it always is |
| JsonlMerge.EarlierDuplicateIsLost | scripts/spot/aggregate.py:206 | of two rows with one key the better is lost if it comes first |
| JsonlMerge.SecondRunChangesNothing | scripts/spot/aggregate.py:199-226 | a second run with the same rows leaves the file as it is and adds nothing |
| JsonlMerge.RunIgnoresOrder | scripts/spot/aggregate.py:210-219 | the scores afterwards do not depend on the order of the new rows |
| JsonlMerge.AddedIsGrowthInKeys | scripts/spot/aggregate.py:217-226 | the count returned is the growth in distinct keys, in whatever order the rows come |
| JsonlMerge.ScoresNeverFall | scripts/spot/aggregate.py:199-226 | over any series of runs a key's score never falls and the key never disappears |

## Left out

- Floating-point rounding, overflow and NaN: exact reals instead.
- HmmDecode.Decode: does not model a negative initial probability, whose logarithm is not a number.
- HmmTrain.TrainBackoffFeatures: does not model that repeated label names share one dictionary entry; the rows are indexed by state.
- LSTM, embeddings, optimiser, batching of the CRF and model export: library numerics.
- Trained CRF weights: the penalties are only initial values, so the BIO theorem is about the weights given to `decode`.
- Training of HMM emissions and the metrics of `evaluate`: they would add counting loops of the kind already modelled.
- File names, categories, encodings and the printed list of errors of the Elgold script.
- Case mapping and stripping of class and target in Elgold: library functions; validation compares the mapped class.
- Nested-markup rescans in Elgold: the regular expression is modelled as the one leftmost scan for its pattern.
- SQLite, the mutex, timestamps, `health`, index runs and file opening: each SQL statement is one step that respects keys, uniqueness and cascades.
- CorpusStore.Store.UpsertSyncState: does not model the cast of the file count to a signed 64-bit integer; counts are natural numbers.
- CorpusStore.Store.BackfillAliases: does not model the order by creation time, since timestamps are left out; it is proved for every order.
- The listing queries of the store (`list_corpora`, `bindings_for_corpus`, `document_ids_for_corpus` and the like): plain reads.
- Content ids hash file bytes with SHA-256; only the text form of the hash is modelled.
- MuxerAgg.AggregateJsonlPaths: does not model that the rows are printed in key order, nor the list of inputs; the groups are a map.
- JsonlMerge: JSON values that are not objects with text keys and a numeric F1, on which the script fails, and the file as a stream of characters; it is its list of lines.
- Summaries, tables, HTML and downloads of the spot scripts, and the other scripts and crates: input and output or wrappers.
