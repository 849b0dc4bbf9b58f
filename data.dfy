/** The record-level part of the three loaders in data.py. Every loader
    starts from records already parsed from JSON; a record is a JSON object
    whose values are strings. The exceptions the Python code raises are
    modelled as `Failure` results. */
module Data {
  import opened Wrappers
  import opened AnswerCleaning

  /** A parsed JSON object (a Python dict with string values). */
  type Record = map<string, string>

  /** The exceptions the loaders raise: a missing dict key, the failed
      assertion in `format_dolly`, and numpy's refusal to draw more items
      than the population holds. */
  datatype Error = KeyError(key: string) | AssertionError | ValueError

  // ---------------------------------------------------------------------
  // read_jsonl: the loop that cleans every answer
  // ---------------------------------------------------------------------

  /** The loop of `read_jsonl` over the parsed lines: each record's
      `answer` is replaced by its cleaned form. A record without `answer`
      raises KeyError. */
  method ReadJsonl(load: seq<Record>) returns (r: Result<seq<Record>, Error>)
    ensures r.Success? <==> forall i :: 0 <= i < |load| ==> "answer" in load[i]
    ensures r.Failure? ==> r.error == KeyError("answer")
    ensures r.Success? ==> |r.value| == |load|
    ensures r.Success? ==> forall i :: 0 <= i < |load| ==>
              r.value[i] == load[i]["answer" := Clean(load[i]["answer"])]
    ensures r.Success? ==> forall i :: 0 <= i < |load| ==>
              r.value[i].Keys == load[i].Keys && !ContainsMarker(r.value[i]["answer"])
  {
    var rows := load;
    var i := 0;
    while i < |rows|
      invariant 0 <= i <= |load| && |rows| == |load|
      invariant forall j :: 0 <= j < i ==>
                  "answer" in load[j] && rows[j] == load[j]["answer" := Clean(load[j]["answer"])]
      invariant forall j :: i <= j < |load| ==> rows[j] == load[j]
    {
      if "answer" !in rows[i] {
        return Failure(KeyError("answer"));
      }
      rows := rows[i := rows[i]["answer" := Clean(rows[i]["answer"])]];
      i := i + 1;
    }
    return Success(rows);
  }

  // ---------------------------------------------------------------------
  // load_bbh_tasks: pooling the task files
  // ---------------------------------------------------------------------

  /** A parsed task file: its list-valued top-level entries. */
  type TaskFile = map<string, seq<Record>>

  predicate AllHaveExamples(tasks: seq<TaskFile>) {
    forall t :: 0 <= t < |tasks| ==> "examples" in tasks[t]
  }

  /** The `examples` list of every task, in task order. */
  function ExampleLists(tasks: seq<TaskFile>): seq<seq<Record>>
    requires AllHaveExamples(tasks)
  {
    seq(|tasks|, t requires 0 <= t < |tasks| => tasks[t]["examples"])
  }

  /** The pool `load_bbh_tasks` builds from well-formed task files: the
      `examples` lists one after the other, as long as all of them together. */
  function PoolOf(tasks: seq<TaskFile>): (r: seq<Record>)
    requires AllHaveExamples(tasks)
    ensures |r| == TotalLength(ExampleLists(tasks))
  {
    FlattenLength(ExampleLists(tasks));
    Flatten(ExampleLists(tasks))
  }

  /** The lists one after the other. */
  function Flatten<T>(xss: seq<seq<T>>): seq<T> {
    if xss == [] then [] else xss[0] + Flatten(xss[1..])
  }

  /** The sum of the lengths of the lists. */
  function TotalLength<T>(xss: seq<seq<T>>): nat {
    if xss == [] then 0 else |xss[0]| + TotalLength(xss[1..])
  }

  /** The pool is as long as all task lists together. */
  lemma {:induction false} FlattenLength<T>(xss: seq<seq<T>>)
    ensures |Flatten(xss)| == TotalLength(xss)
  {
    if xss != [] {
      FlattenLength(xss[1..]);
    }
  }

  /** Extending the pool by one more list. */
  lemma {:induction false} FlattenAppend<T>(xss: seq<seq<T>>, ys: seq<T>)
    ensures Flatten(xss + [ys]) == Flatten(xss) + ys
  {
    if xss == [] {
      assert xss + [ys] == [ys];
      assert Flatten([ys][1..]) == [];
    } else {
      assert (xss + [ys])[1..] == xss[1..] + [ys];
      FlattenAppend(xss[1..], ys);
    }
  }

  /** Element `j` of list `t` sits in the pool after every element of the
      lists before it: the pool keeps task order and the order within
      each task. */
  lemma {:induction false} FlattenAt<T>(xss: seq<seq<T>>, t: nat, j: nat)
    requires t < |xss| && j < |xss[t]|
    ensures TotalLength(xss[..t]) + j < |Flatten(xss)|
    ensures Flatten(xss)[TotalLength(xss[..t]) + j] == xss[t][j]
  {
    FlattenLength(xss[1..]);
    if t == 0 {
      assert xss[..0] == [];
    } else {
      assert xss[..t][1..] == xss[1..][..t - 1];
      assert xss[..t][0] == xss[0];
      FlattenAt(xss[1..], t - 1, j);
    }
  }

  /** The loop of `load_bbh_tasks` that extends the pool with the
      `examples` list of each task file; a file without `examples` raises
      KeyError. */
  method Pool(tasks: seq<TaskFile>) returns (r: Result<seq<Record>, Error>)
    ensures r.Success? <==> AllHaveExamples(tasks)
    ensures r.Failure? ==> r.error == KeyError("examples")
    ensures r.Success? ==> r.value == PoolOf(tasks)
  {
    var all: seq<Record> := [];
    for t := 0 to |tasks|
      invariant AllHaveExamples(tasks[..t])
      invariant all == Flatten(ExampleLists(tasks[..t]))
    {
      if "examples" !in tasks[t] {
        return Failure(KeyError("examples"));
      }
      assert tasks[..t + 1] == tasks[..t] + [tasks[t]];
      assert ExampleLists(tasks[..t + 1]) == ExampleLists(tasks[..t]) + [tasks[t]["examples"]];
      FlattenAppend(ExampleLists(tasks[..t]), tasks[t]["examples"]);
      all := all + tasks[t]["examples"];
    }
    assert tasks[..|tasks|] == tasks;
    return Success(all);
  }

  // ---------------------------------------------------------------------
  // load_bbh_tasks: sampling without replacement
  // ---------------------------------------------------------------------

  /** What `np.random.choice(..., replace=False, size=size)` can pick from a
      population of `n`: `size` pairwise-distinct positions below `n`. */
  predicate IsDraw(picks: seq<nat>, size: int, n: nat) {
    && |picks| == size
    && (forall i :: 0 <= i < |picks| ==> picks[i] < n)
    && (forall i, j :: 0 <= i < j < |picks| ==> picks[i] != picks[j])
  }

  /** The items at the picked positions, in the order they were picked. */
  function Pick<T>(pool: seq<T>, picks: seq<nat>): (r: seq<T>)
    requires forall i :: 0 <= i < |picks| ==> picks[i] < |pool|
    ensures |r| == |picks|
    ensures forall i :: 0 <= i < |picks| ==> r[i] == pool[picks[i]]
  {
    if picks == [] then [] else [pool[picks[0]]] + Pick(pool, picks[1..])
  }

  /** Lines 38-39: with a positive `sample` the pool is replaced by a draw
      without replacement, and numpy raises ValueError when `sample`
      exceeds the pool. The draw itself is the explicit input `picks`. */
  function Sample(pool: seq<Record>, sample: int, picks: seq<nat>): (r: Result<seq<Record>, Error>)
    requires 0 < sample <= |pool| ==> IsDraw(picks, sample, |pool|)
    ensures sample <= 0 ==> r == Success(pool)
    ensures sample > |pool| ==> r == Failure(ValueError)
    ensures 0 < sample <= |pool| ==> r.Success? && |r.value| == sample
    ensures 0 < sample <= |pool| ==> forall i :: 0 <= i < sample ==> r.value[i] == pool[picks[i]]
  {
    if sample <= 0 then Success(pool)
    else if sample > |pool| then Failure(ValueError)
    else Success(Pick(pool, picks))
  }

  /** A draw without replacement takes no row more often than the pool
      holds it: the sample is a sub-multiset of the pool. */
  lemma {:induction false} DrawIsSubMultiset<T>(pool: seq<T>, picks: seq<nat>)
    requires IsDraw(picks, |picks|, |pool|)
    ensures multiset(Pick(pool, picks)) <= multiset(pool)
    decreases |picks|
  {
    if picks != [] {
      var smaller, shifted := RemoveFirstPick(pool, picks);
      DrawIsSubMultiset(smaller, shifted);
      assert Pick(pool, picks) == [pool[picks[0]]] + Pick(pool, picks[1..]);
    }
  }

  /** Taking the first picked item out of the pool leaves a draw of the
      remaining picks from the rest of the pool. */
  lemma RemoveFirstPick<T>(pool: seq<T>, picks: seq<nat>) returns (smaller: seq<T>, shifted: seq<nat>)
    requires IsDraw(picks, |picks|, |pool|) && picks != []
    ensures |shifted| == |picks| - 1 && IsDraw(shifted, |shifted|, |smaller|)
    ensures Pick(smaller, shifted) == Pick(pool, picks[1..])
    ensures multiset(pool) == multiset(smaller) + multiset{pool[picks[0]]}
  {
    var p := picks[0];
    var rest := picks[1..];
    smaller := pool[..p] + pool[p + 1..];
    forall i | 0 <= i < |rest|
      ensures rest[i] != p && rest[i] < |pool|
    {
      assert rest[i] == picks[i + 1];
    }
    shifted := seq(|rest|, i requires 0 <= i < |rest| => if rest[i] < p then rest[i] else rest[i] - 1);
    forall i | 0 <= i < |rest|
      ensures shifted[i] < |smaller| && smaller[shifted[i]] == pool[rest[i]]
    {
      if rest[i] > p {
        assert smaller[rest[i] - 1] == pool[p + 1..][rest[i] - 1 - p];
      }
    }
    forall i, j | 0 <= i < j < |rest|
      ensures shifted[i] != shifted[j]
    {
      assert rest[i] == picks[i + 1] && rest[j] == picks[j + 1];
    }
    assert Pick(smaller, shifted) == Pick(pool, rest);
    SplitMultiset(pool, p);
  }

  /** Removing one position from a sequence removes one occurrence. */
  lemma SplitMultiset<T>(s: seq<T>, p: nat)
    requires p < |s|
    ensures multiset(s) == multiset(s[..p] + s[p + 1..]) + multiset{s[p]}
  {
    assert s == s[..p] + [s[p]] + s[p + 1..];
  }

  // ---------------------------------------------------------------------
  // load_bbh_tasks: renaming the fields
  // ---------------------------------------------------------------------

  /** The keys `replace` removes and the keys it sets. */
  const RenamedKeys: set<string> := {"input", "target", "question", "answer"}

  /** `d.pop(key)`: the value and the dict without `key`, or KeyError. */
  function Pop(d: Record, key: string): (r: Result<(string, Record), Error>)
    ensures r.Success? <==> key in d
    ensures r.Failure? ==> r.error == KeyError(key)
    ensures r.Success? ==> r.value.0 == d[key] && r.value.1.Keys == d.Keys - {key}
    ensures r.Success? ==> forall k :: k in r.value.1 ==> r.value.1[k] == d[k]
  {
    if key in d then Success((d[key], d - {key})) else Failure(KeyError(key))
  }

  /** `replace` (lines 41-44): `question` takes the popped `input` and then
      `answer` takes the popped `target`. */
  function RenameFields(d: Record): (r: Result<Record, Error>)
    ensures "input" !in d ==> r == Failure(KeyError("input"))
    ensures "input" in d && "target" !in d ==> r == Failure(KeyError("target"))
    ensures "input" in d && "target" in d ==> r.Success?
    ensures r.Success? ==> r.value.Keys == d.Keys - {"input", "target"} + {"question", "answer"}
    ensures r.Success? ==> r.value["question"] == d["input"] && r.value["answer"] == d["target"]
    ensures r.Success? ==> forall k :: k in d && k !in RenamedKeys ==> r.value[k] == d[k]
  {
    var input :- Pop(d, "input");
    var withQuestion := input.1["question" := input.0];
    var target :- Pop(withQuestion, "target");
    Success(target.1["answer" := target.0])
  }

  predicate HasBbhFields(d: Record) {
    "input" in d && "target" in d
  }

  /** Row `i` is the first row without both BBH fields. */
  predicate FirstWithout(rows: seq<Record>, i: nat)
    requires i < |rows|
  {
    !HasBbhFields(rows[i]) && forall j :: 0 <= j < i ==> HasBbhFields(rows[j])
  }

  /** `list(map(replace, all_data))`: every row renamed, in order; the
      first row that cannot be renamed raises its error. */
  function RenameRows(rows: seq<Record>): (r: Result<seq<Record>, Error>)
    ensures r.Success? <==> forall i :: 0 <= i < |rows| ==> HasBbhFields(rows[i])
    ensures r.Success? ==> |r.value| == |rows|
    ensures r.Success? ==> forall i :: 0 <= i < |rows| ==> RenameFields(rows[i]) == Success(r.value[i])
    ensures r.Failure? ==>
              exists i :: 0 <= i < |rows| && FirstWithout(rows, i) && Failure(r.error) == RenameFields(rows[i])
    decreases |rows|
  {
    if rows == [] then Success([])
    else
      var front := rows[..|rows| - 1];
      assert forall i :: 0 <= i < |front| ==> front[i] == rows[i];
      var done :- RenameRows(front);
      var last :- RenameFields(rows[|rows| - 1]);
      Success(done + [last])
  }

  /** `load_bbh_tasks` after the files are parsed: pool, sample, rename. */
  method LoadBbhTasks(tasks: seq<TaskFile>, sample: int, picks: seq<nat>) returns (r: Result<seq<Record>, Error>)
    requires AllHaveExamples(tasks) && 0 < sample <= |PoolOf(tasks)| ==> IsDraw(picks, sample, |PoolOf(tasks)|)
    ensures !AllHaveExamples(tasks) ==> r == Failure(KeyError("examples"))
    ensures AllHaveExamples(tasks) && sample <= 0 ==> r == RenameRows(PoolOf(tasks))
    ensures AllHaveExamples(tasks) && sample > |PoolOf(tasks)| ==> r == Failure(ValueError)
    ensures AllHaveExamples(tasks) && 0 < sample <= |PoolOf(tasks)| ==> r == RenameRows(Pick(PoolOf(tasks), picks))
    ensures r.Success? ==> |r.value| == if sample > 0 then sample else |PoolOf(tasks)|
    ensures r.Success? ==> forall i :: 0 <= i < |r.value| ==> "question" in r.value[i] && "answer" in r.value[i]
  {
    var pool :- Pool(tasks);
    var chosen :- Sample(pool, sample, picks);
    r := RenameRows(chosen);
  }

  // ---------------------------------------------------------------------
  // load_dolly_data and format_dolly
  // ---------------------------------------------------------------------

  /** `format_dolly` (lines 51-57): the assertion on the two keys, then the
      two fields joined by one space, `context` first when the coin shows
      true. The coin stands for `random.choice([True, False])`. */
  function FormatDolly(data: Record, coin: bool): (r: Result<string, Error>)
    ensures r.Success? <==> "instruction" in data && "context" in data
    ensures r.Failure? ==> r.error == AssertionError
    ensures r.Success? ==> |r.value| == |data["instruction"]| + |data["context"]| + 1
    ensures r.Success? ==>
              r.value == data["instruction"] + " " + data["context"] || r.value == data["context"] + " " + data["instruction"]
    ensures r.Success? && coin ==> r.value == data["context"] + " " + data["instruction"]
    ensures r.Success? && !coin ==> r.value == data["instruction"] + " " + data["context"]
  {
    if !("instruction" in data && "context" in data) then Failure(AssertionError)
    else if coin then Success(data["context"] + " " + data["instruction"])
    else Success(data["instruction"] + " " + data["context"])
  }

  predicate IsDollyRecord(d: Record) {
    "instruction" in d && "context" in d && "response" in d
  }

  /** Line `i` is the first line that is not a Dolly record. */
  predicate FirstNonDolly(lines: seq<Record>, i: nat)
    requires i < |lines|
  {
    !IsDollyRecord(lines[i]) && forall j :: 0 <= j < i ==> IsDollyRecord(lines[j])
  }

  /** The error `load_dolly_data` raises on a record that is not a Dolly record. */
  function DollyError(d: Record): Error {
    if "instruction" in d && "context" in d then KeyError("response") else AssertionError
  }

  /** The loop of `load_dolly_data` over the parsed lines (lines 61-69),
      with one coin per line. */
  method LoadDollyData(lines: seq<Record>, coins: seq<bool>) returns (r: Result<seq<Record>, Error>)
    requires |coins| == |lines|
    ensures r.Success? <==> forall i :: 0 <= i < |lines| ==> IsDollyRecord(lines[i])
    ensures r.Failure? ==>
              exists i :: 0 <= i < |lines| && FirstNonDolly(lines, i) && r.error == DollyError(lines[i])
    ensures r.Success? ==> |r.value| == |lines|
    ensures r.Success? ==> forall i :: 0 <= i < |lines| ==>
              && r.value[i].Keys == {"question", "answer"}
              && r.value[i]["answer"] == lines[i]["response"]
              && FormatDolly(lines[i], coins[i]) == Success(r.value[i]["question"])
  {
    var all: seq<Record> := [];
    for i := 0 to |lines|
      invariant |all| == i
      invariant forall j :: 0 <= j < i ==> IsDollyRecord(lines[j])
      invariant forall j :: 0 <= j < i ==>
                  && all[j].Keys == {"question", "answer"}
                  && all[j]["answer"] == lines[j]["response"]
                  && FormatDolly(lines[j], coins[j]) == Success(all[j]["question"])
    {
      var question :- FormatDolly(lines[i], coins[i]);
      if "response" !in lines[i] {
        return Failure(KeyError("response"));
      }
      var answer := lines[i]["response"];
      all := all + [map["question" := question, "answer" := answer]];
    }
    return Success(all);
  }
}
