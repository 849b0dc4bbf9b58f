# Instruction-tuning data preparation, modelled in Dafny

This project models the deterministic record and text logic of a small
instruction-tuning script. The script fine-tunes a sequence-to-sequence
model on three sources: grade-school-math word problems, the Big-Bench-Hard
(BBH) task files and the Dolly instruction set. What it models:

- `clean` (module `AnswerCleaning`, `cleaning.dfy`):
  - It deletes the calculator annotations `<<...>>` from a math answer, with
    the semantics of Python's `re.sub(r"<<.*?>>", "", s)`. The match is
    lazy and stops at a newline.
  - It then replaces every `####` by "The answer is", leftmost first and
    without overlap, as `str.replace` does.
- The three loaders of `data.py` (module `Data`, `data.dfy`), from
  already-parsed records onward. A record is a `map<string, string>`. The
  exceptions Python raises become `Failure` results:
  - the answer-cleaning loop of `read_jsonl`;
  - the pooling, sampling without replacement and `input`/`target` renaming
    of `load_bbh_tasks`;
  - `format_dolly` and the row construction of `load_dolly_data`.
- In module `Train` (`train.dfy`):
  - `preprocess_function`. The tokenizer is a function parameter from the
    full set of call arguments to an encoding.
  - The in-place rewrite of the ignore index `-100` to `0` at the start of
    `accuracy`, modelled on `array<int>`.

Randomness is an explicit input:
- the coin of `random.choice([True, False])` is one `bool` per Dolly record;
- the draw of `np.random.choice(..., replace=False)` is a sequence of
  pairwise-distinct positions into the pool.

Record shapes and errors:
- Grade-school-math records keep every key they were parsed with; only
  `answer` changes. BBH rows keep every key except `input` and `target`,
  which become `question` and `answer`. Only Dolly rows have exactly the two
  keys `question` and `answer`. `Data.ReadJsonl`, `Data.RenameFields` and
  `Data.LoadDollyData` state this.
- Python's exceptions carry no record index, and neither do the model's
  errors. Where the error depends on the record (`Data.RenameRows`,
  `Data.LoadDollyData`), the `Failure` contracts say which record comes
  first; elsewhere the error is the same whichever record fails.

## Model

| member | source | states |
|---|---|---|
| AnswerCleaning.FindClose | data.py:12 | where the lazy `.*?>>` after an opening `<<` ends: the least position of `>>` with no newline before it, or None when there is none |
| AnswerCleaning.Clean | data.py:11-12 | the cleaned answer contains no `####` and no `<<` followed on the same line by `>>` |
| AnswerCleaning.CleanFixedPoint | data.py:12 | `clean` returns its input unchanged exactly when the input has no `####` and no `<<` closed by `>>` on the same line |
| AnswerCleaning.CleanIdempotent | data.py:12 | cleaning twice gives the same as cleaning once |
| AnswerCleaning.CleanByLine | data.py:12 | an answer is cleaned line by line: cleaning `a + "\n" + b` cleans `a` and `b` separately |
| AnswerCleaning.CleanAnnotatedAnswer | data.py:12 | for text without `<` or `#`, one annotation (its body may hold `>` but no `>>`, no newline and no final `>`), text without `<` or `#`, the marker and a final answer without `<` or `#`, the annotation is deleted, the marker becomes the phrase and every other character is kept in order |
| AnswerCleaning.CleanJoinedMarker | data.py:12 | "##<<x>>##" cleans to "The answer is": a `####` that only appears once an annotation is deleted is still replaced |
| AnswerCleaning.CleanKeepsOpenerBeforeNewline | data.py:12 | a `<<` whose only later `>>` is past a newline is not removed, whatever else its line holds (`>`, `<`, another `<<`): a line without `####` is kept verbatim and the rest is cleaned on its own |
| AnswerCleaning.HasAnnotationIff | data.py:12 | the recursive test for an annotation holds exactly when the pattern matches at some position |
| AnswerCleaning.ContainsMarkerIff | data.py:12 | the recursive test for `####` holds exactly when `####` occurs at some position |
| AnswerCleaning.StripAnnotations | data.py:12 | the `re.sub` pass, scanning left to right: a `<<` with a lazy same-line `>>` after it is deleted with its span, otherwise one character is kept; its properties are stated by StripIsSubseq, StripDeletesSpan, CleanKeepsOpenerBeforeNewline, StripNoAnnotation and StripIdentity |
| AnswerCleaning.StripIsSubseq | data.py:12 | for every input the `re.sub` pass only deletes characters and keeps every other one in order: the result is a subsequence of the input |
| AnswerCleaning.FindCloseAtEnd | data.py:12 | after a body with no newline, no `>>` of its own and not ending in `>`, the lazy match ends at the `>>` that follows it |
| AnswerCleaning.NoLineCloseNoAnnotation | data.py:12 | on a line that holds no `>>`, no match can start |
| AnswerCleaning.StripNoAnnotation | data.py:12 | no annotation is left after the `re.sub` pass |
| AnswerCleaning.StripIdentity | data.py:12 | the `re.sub` pass leaves a string without annotations unchanged |
| AnswerCleaning.StripByLine | data.py:12 | the `re.sub` pass never deletes across a newline |
| AnswerCleaning.StripPlainPrefix | data.py:12 | the `re.sub` pass keeps a prefix that holds no `<<` candidate, verbatim and in order |
| AnswerCleaning.StripDeletesSpan | data.py:12 | a `<<x>>` span whose body has no newline, no `>>` of its own and does not end in `>` (an inner `>` as in `<<5>3>>` is allowed) is deleted and the scan resumes right after it |
| AnswerCleaning.StripKeepsUnclosed | data.py:12 | the `re.sub` pass cannot create a `>>` that closes an earlier unclosed `<<` |
| AnswerCleaning.ReplaceMarker | data.py:12 | `str.replace`, leftmost and without overlap; its properties are stated by ReplaceSpan, ReplaceIdentity, ReplaceNoMarker and ReplaceByLine |
| AnswerCleaning.ReplaceNoMarker | data.py:12 | no `####` is left after `str.replace`, even in the phrase and at its joins |
| AnswerCleaning.ReplaceIdentity | data.py:12 | `str.replace` leaves a string without `####` unchanged |
| AnswerCleaning.ReplaceSpan | data.py:12 | the leftmost `####` becomes the phrase and the text before it is kept, whatever `#` that text holds, as long as no marker starts inside it |
| AnswerCleaning.ReplaceByLine | data.py:12 | `str.replace` works line by line |
| AnswerCleaning.ReplaceNoNewAnnotation | data.py:12 | `str.replace` cannot create a new annotation |
| Data.ReadJsonl | data.py:17-19 | the loop keeps the number and order of records; each `answer` becomes its cleaned value with no `####` left and the key set is unchanged; a record without `answer` raises KeyError |
| Data.Pool | data.py:33-37 | the pool is the concatenation of every task file's `examples` list, in task order; a file without `examples` raises KeyError |
| Data.PoolOf | data.py:33-37 | the pool the `extend` loop builds is the `examples` lists one after the other, as long as all of them together |
| Data.FlattenLength | data.py:33-37 | the pool's length is the sum of the lengths of the task lists |
| Data.FlattenAt | data.py:33-37 | example `j` of task `t` sits in the pool right after all examples of the earlier tasks |
| Data.Pick | data.py:39 | the drawn rows are the pool's rows at the picked positions, one per pick, in draw order |
| Data.Sample | data.py:38-39 | with `sample <= 0` the pool is unchanged; with `sample` between 1 and the pool size exactly `sample` rows from pairwise-distinct positions; with `sample` above the pool size ValueError |
| Data.DrawIsSubMultiset | data.py:39 | a draw without replacement takes no row more often than the pool holds it |
| Data.Pop | data.py:42-43 | `d.pop(key)` returns the value under `key` and the dict without that key, every other entry unchanged; a missing key raises KeyError |
| Data.RenameFields | data.py:41-44 | `question` takes the old `input` and `answer` the old `target`; `input` and `target` are gone and every other key is kept; a missing `input` and then a missing `target` raise KeyError |
| Data.RenameRows | data.py:46 | every row is renamed and the row order is kept; the first row without both BBH fields raises its error |
| Data.LoadBbhTasks | data.py:30-46 | pool, optional draw and renaming composed; the row count is `sample` when sampling, otherwise the pool size; every row has `question` and `answer` |
| Data.FormatDolly | data.py:51-57 | `context + " " + instruction` when the coin is true, otherwise `instruction + " " + context`, whose length is the two lengths plus one; a missing `instruction` or `context` fails the assertion |
| Data.LoadDollyData | data.py:60-69 | one row per record, in order, with exactly the keys `question` and `answer`; `answer` is `response` verbatim; the first bad record raises AssertionError, or KeyError for a missing `response` |
| Train.DebugSlice | train.py:83-88 | with `debug` the first `min(3, n)` entries of the column, otherwise the full column |
| Train.PaddingFor | train.py:92 | no padding exactly when the training batch size is 1 |
| Train.TokenizerCalls | train.py:83-101 | questions are tokenized with the source max length and answers, as targets, with the target max length; both use truncation and the same padding mode; a missing column raises KeyError |
| Train.Preprocess | train.py:82-103 | the result is the question encoding plus one more key, `labels`, equal to the answer encoding's `input_ids`; all other keys of the question encoding are unchanged |
| Train.Unmasked | train.py:19 | the rewritten sequence is as long as the old one; UnmaskedAt states each position |
| Train.UnmaskedAt | train.py:19 | at each position `-100` becomes 0 and every other entry is kept |
| Train.UnmaskedHasNoIgnoreIndex | train.py:19-20 | no `-100` is left after the rewrite |
| Train.UnmaskedIdempotent | train.py:19-20 | rewriting an already rewritten sequence changes nothing |
| Train.ReplaceIgnoreIndex | train.py:19 | the array afterwards is the rewrite of its old contents: `-100` becomes 0, the length and every other entry are kept |
| Train.ClearIgnoreIndex | train.py:19-20 | after both lines neither array holds `-100`, also when labels and predictions are the same array |

## Left out

- File and JSON I/O (`open`, `readlines`, `json.loads`, `json.load`): the model starts from parsed records.
- `glob.glob`: its order depends on the file system, so the task files are given as a sequence in the order `glob` returned them.
- `load_data` is only I/O composition of `read_jsonl` and `Dataset.from_list`, so it is not modelled.
- The `if line` filter in `read_jsonl`: `readlines` never yields an empty line, so every parsed record is kept.
- JSON values that are not strings: records are maps from strings to strings.
- `Dataset.from_list`, the `datasets` map machinery and `num_proc=8`: these are library code, and the last one is parallel.
- Dictionary key order: Python dicts are ordered and Dafny maps are not, so the position of `question` and `answer` among a row's keys is not modelled.
- Data.RenameFields: it is modelled on values. The in-place mutation of the parsed dicts by `pop` and assignment, and any aliasing between them, are not captured.
- Data.ReadJsonl: the records it changes in place are modelled as a sequence of values that the loop reassigns, so aliasing between records is not captured.
- The random generators themselves: the coins and the drawn positions are inputs. Which draws numpy can produce is modelled only as pairwise-distinct positions below the pool size.
- Tokenizer internals: truncation, padding and the encodings are an uninterpreted function of the call's arguments. So the model says nothing about token lengths, and nothing about exceptions raised inside the tokenizer.
- Train.ReplaceIgnoreIndex: the 2-D numpy label and prediction arrays are modelled flattened, as one `array<int>` each.
- `np.argmax` over float logits, `batch_decode` and the metric computation of `accuracy`: floating point and foreign calls.
- Model and trainer setup, training, evaluation, the experiment tracker and argument parsing: these are library plumbing.
