/**
 Optimistic locking and the workflow guard: in-memory instances of one row, each save a single
 conditional UPDATE at the version as loaded.
 */
module Versioning {
  import opened Outcomes

  const STATUS := "status"

  type Data = map<string, int>

  datatype Row = Row(version: nat, status: int, data: Data)

  /** A loaded model object. */
  datatype Instance = Instance(version: nat, status: int, data: Data, original: int)

  datatype Outcome = Saved | Guarded | Conflict

  function Loaded(row: Row): Instance {
    Instance(row.version, row.status, row.data, row.status)
  }

  /** The row after the UPDATE; an empty field list means every field. */
  function Written(row: Row, me: Instance, fields: set<string>): Row {
    Row(me.version + 1,
        if fields == {} || STATUS in fields then me.status else row.status,
        map k | k in row.data :: if (fields == {} || k in fields) && k in me.data then me.data[k] else row.data[k])
  }

  /**
   `save`: a status changed outside a workflow is refused; otherwise the version in memory goes up
   whether or not the row was still at it.
   */
  function Save(row: Row, me: Instance, fields: set<string>, workflow: bool): (Row, Instance, Outcome) {
    if me.original != me.status && !workflow then (row, me, Guarded)
    else if row.version != me.version then (row, me.(version := me.version + 1), Conflict)
    else (Written(row, me, fields), me.(version := me.version + 1, original := me.status), Saved)
  }

  class Table {
    var row: Row

    constructor (row: Row)
      ensures this.row == row
    {
      this.row := row;
    }

    /** UPDATE ... WHERE version = expected; the number of rows changed. */
    method ConditionalUpdate(expected: nat, row: Row) returns (changed: nat)
      modifies this
      ensures changed == if old(this.row).version == expected then 1 else 0
      ensures this.row == if changed == 1 then row else old(this.row)
    {
      if this.row.version != expected { return 0; }
      this.row := row;
      return 1;
    }
  }

  class Model {
    const table: Table
    var version: nat
    var status: int
    var data: Data
    var original: int

    constructor (table: Table)
      ensures this.table == table && State() == Loaded(table.row)
    {
      this.table := table;
      version, status, data, original := table.row.version, table.row.status, table.row.data, table.row.status;
    }

    function State(): Instance
      reads this
    {
      Instance(version, status, data, original)
    }

    method SaveRow(fields: set<string>, workflow: bool) returns (outcome: Outcome)
      modifies this`version, this`original, table
      ensures (table.row, State(), outcome) == Save(old(table.row), old(State()), fields, workflow)
    {
      if original != status && !workflow { return Guarded; }
      var expected := version;
      var values := Written(table.row, State(), fields);
      version := expected + 1;
      var changed := table.ConditionalUpdate(expected, values);
      if changed == 0 { return Conflict; }
      original := status;
      return Saved;
    }
  }

  /** When a save goes through, and column by column what it then leaves: the listed fields, or all of them
      if none are listed, as they are in memory, the others as they were, at the next version. */
  lemma SaveExact(row: Row, me: Instance, fields: set<string>, workflow: bool, field: string)
    requires field in row.data && field in me.data
    ensures var (after, memory, outcome) := Save(row, me, fields, workflow);
      && (outcome == Guarded <==> me.original != me.status && !workflow)
      && (outcome == Saved <==> (me.original == me.status || workflow) && row.version == me.version)
      && (outcome != Saved ==> after == row)
      && (outcome == Saved ==>
            && after.version == row.version + 1 && after.data.Keys == row.data.Keys
            && after.data[field] == (if field in fields || fields == {} then me.data[field] else row.data[field])
            && after.status == (if "status" in fields || fields == {} then me.status else row.status))
      && memory.data == me.data && memory.status == me.status
      && memory.version == (if outcome == Guarded then me.version else me.version + 1)
      && memory.original == (if outcome == Saved then me.status else me.original)
  {
  }

  // ---------------------------------------------------------------- many instances

  /** An instance, the row it reflects (as loaded or last saved), and how far its version has run ahead
      of that row: by one with every save since that failed or was rolled back. */
  datatype Session = Session(me: Instance, known: Row, drift: nat)

  datatype System = System(row: Row, sessions: seq<Session>, saves: nat)

  datatype Action =
    | Load(who: nat)
    | Edit(who: nat, field: string, value: int)
    | SetStatus(who: nat, status: int)
    | SaveFields(who: nat, fields: set<string>, commits: bool)
    | Transition(who: nat, target: int, commits: bool)   // status and a full save, inside a workflow

  function Start(row: Row, instances: nat): System {
    System(row, seq(instances, i => Session(Loaded(row), row, 0)), 0)
  }

  /** A save whose transaction then commits or is rolled back: memory is not rolled back with it. */
  function Attempt(s: System, i: nat, me: Instance, fields: set<string>, workflow: bool, commits: bool): System
    requires i < |s.sessions|
  {
    var (row, after, outcome) := Save(s.row, me, fields, workflow);
    var was := s.sessions[i];
    match outcome
    case Guarded => s.(sessions := s.sessions[i := was.(me := after)])
    case Conflict => s.(sessions := s.sessions[i := Session(after, was.known, was.drift + 1)])
    case Saved =>
      if commits then
        // a partial save of an instance that has drifted leaves its other fields as stale as before
        var reflects := was.drift == 0 || fields == {};
        System(row, s.sessions[i := if reflects then Session(after, row, 0) else Session(after, was.known, was.drift + 1)],
               s.saves + 1)
      else s.(sessions := s.sessions[i := Session(after, was.known, was.drift + 1)])
  }

  function Step(s: System, a: Action): System {
    if a.who >= |s.sessions| then s
    else
      var me := s.sessions[a.who].me;
      match a
      case Load(i) => s.(sessions := s.sessions[i := Session(Loaded(s.row), s.row, 0)])
      case Edit(i, field, value) =>
        if field in me.data then s.(sessions := s.sessions[i := s.sessions[i].(me := me.(data := me.data[field := value]))])
        else s
      case SetStatus(i, status) => s.(sessions := s.sessions[i := s.sessions[i].(me := me.(status := status))])
      case SaveFields(i, fields, commits) => Attempt(s, i, me, fields, false, commits)
      case Transition(i, target, commits) => Attempt(s, i, me.(status := target), {}, true, commits)
  }

  function Execute(s: System, run: seq<Action>): System {
    if run == [] then s else Step(Execute(s, run[..|run| - 1]), run[|run| - 1])
  }

  /** What a session knows is the row, or an older version; its own version has run ahead by its drift. */
  ghost predicate SessionOk(s: System, i: nat)
    requires i < |s.sessions|
  {
    var x := s.sessions[i];
    && x.known.version <= s.row.version
    && (x.known.version == s.row.version ==> x.known == s.row)
    && x.me.version == x.known.version + x.drift
    && (x.drift == 0 ==> x.me.original == x.known.status)
    && x.me.data.Keys == s.row.data.Keys
  }

  ghost predicate Inv(s: System) {
    forall i :: 0 <= i < |s.sessions| ==> SessionOk(s, i)
  }

  /** A save keeps what is known of the row, of its own session and of any other. */
  lemma AttemptKeeps(s: System, i: nat, me: Instance, fields: set<string>, workflow: bool, commits: bool, j: nat)
    requires Inv(s) && i < |s.sessions| && j < |s.sessions|
    requires me.version == s.sessions[i].me.version && me.original == s.sessions[i].me.original
    requires me.data.Keys == s.row.data.Keys && (workflow ==> fields == {})
    ensures SessionOk(Attempt(s, i, me, fields, workflow, commits), j)
  {
    if i == j { AttemptKeepsOwn(s, i, me, fields, workflow, commits); } else { assert SessionOk(s, i) && SessionOk(s, j); }
  }

  lemma AttemptKeepsOwn(s: System, i: nat, me: Instance, fields: set<string>, workflow: bool, commits: bool)
    requires Inv(s) && i < |s.sessions|
    requires me.version == s.sessions[i].me.version && me.original == s.sessions[i].me.original
    requires me.data.Keys == s.row.data.Keys && (workflow ==> fields == {})
    ensures SessionOk(Attempt(s, i, me, fields, workflow, commits), i)
  {
    assert SessionOk(s, i);
  }

  lemma StepKeepsInv(s: System, a: Action)
    requires Inv(s)
    ensures Inv(Step(s, a))
    ensures Step(s, a).row.version - Step(s, a).saves == s.row.version - s.saves
  {
    var t := Step(s, a);
    forall j | 0 <= j < |t.sessions| ensures SessionOk(t, j) {
      assert SessionOk(s, j);
      if a.who < |s.sessions| {
        var me := s.sessions[a.who].me;
        assert SessionOk(s, a.who);
        match a
        case SaveFields(i, fields, commits) => AttemptKeeps(s, i, me, fields, false, commits, j);
        case Transition(i, target, commits) => AttemptKeeps(s, i, me.(status := target), {}, true, commits, j);
        case _ =>
      }
    }
  }

  lemma {:induction false} ExecuteKeepsInv(row: Row, instances: nat, run: seq<Action>)
    ensures var s := Execute(Start(row, instances), run); Inv(s) && s.row.version == row.version + s.saves
    decreases |run|
  {
    if run != [] {
      var front := run[..|run| - 1];
      ExecuteKeepsInv(row, instances, front);
      StepKeepsInv(Execute(Start(row, instances), front), run[|run| - 1]);
    }
  }

  predicate IsSave(a: Action) {
    a.SaveFields? || a.Transition?
  }

  /** The action is a save that changes the row. */
  predicate Succeeds(s: System, a: Action) {
    IsSave(a) && Step(s, a).saves == s.saves + 1
  }

  /** The version counts the successful saves. */
  lemma {:induction false} VersionCountsSaves(row: Row, instances: nat, run: seq<Action>)
    ensures var s := Execute(Start(row, instances), run); s.row.version == row.version + s.saves
  {
    ExecuteKeepsInv(row, instances, run);
  }

  /**
   In every reachable state, a save that goes through overwrites exactly the row its instance reflects
   if and only if none of its saves since has failed or been rolled back.
   */
  lemma SaveOverwritesWhatItKnows(row: Row, instances: nat, run: seq<Action>, a: Action)
    ensures var s := Execute(Start(row, instances), run);
      Succeeds(s, a) ==>
        && a.who < |s.sessions|
        && (s.row == s.sessions[a.who].known <==> s.sessions[a.who].drift == 0)
  {
    ExecuteKeepsInv(row, instances, run);
    var s := Execute(Start(row, instances), run);
    if a.who < |s.sessions| { assert SessionOk(s, a.who); }
  }

  /** So, reloading after every failure, a save changes only what its own instance has changed. */
  lemma NothingElseIsOverwritten(row: Row, instances: nat, run: seq<Action>, a: Action, field: string)
    ensures var s := Execute(Start(row, instances), run);
      Succeeds(s, a) && s.sessions[a.who].drift == 0 ==>
        var x := s.sessions[a.who];
        && (field in x.known.data && field in x.me.data && x.me.data[field] == x.known.data[field] ==>
              field in s.row.data && field in Step(s, a).row.data && Step(s, a).row.data[field] == s.row.data[field])
        && (a.SaveFields? ==> Step(s, a).row.status == s.row.status)
  {
    SaveOverwritesWhatItKnows(row, instances, run, a);
    ExecuteKeepsInv(row, instances, run);
    var s := Execute(Start(row, instances), run);
    if a.who < |s.sessions| { assert SessionOk(s, a.who); }
  }

  // ---------------------------------------------------------------- saving again without reloading

  /** Two instances; the second repeats a refused save as it is. */
  const RETRY: seq<Action> := [
    Edit(0, "note", 1), SaveFields(0, {}, true), Edit(1, "price", 7), SaveFields(1, {}, true), SaveFields(1, {}, true)]

  /** The repeated save goes through and takes the first instance's update back. */
  lemma RetryLosesAnUpdate()
    ensures var row := Row(0, 0, map["note" := 0, "price" := 5]);
      var s := Execute(Start(row, 2), RETRY);
      s.saves == 2 && s.row == Row(2, 0, map["note" := 0, "price" := 7])
  {
    var r, s := RETRY, Start(Row(0, 0, map["note" := 0, "price" := 5]), 2);
    assert r == [] + [r[0]] + [r[1]] + [r[2]] + [r[3]] + [r[4]];
    ExecuteAppend(s, [], r[0]);
    ExecuteAppend(s, [] + [r[0]], r[1]);
    ExecuteAppend(s, [] + [r[0]] + [r[1]], r[2]);
    ExecuteAppend(s, [] + [r[0]] + [r[1]] + [r[2]], r[3]);
    ExecuteAppend(s, [] + [r[0]] + [r[1]] + [r[2]] + [r[3]], r[4]);
    var s2 := Step(Step(s, r[0]), r[1]);
    assert s2.row.data == map["note" := 1, "price" := 5];
    var s4 := Step(Step(s2, r[2]), r[3]);
    assert Step(s4, r[4]).row.data == map["note" := 0, "price" := 7];
  }

  lemma ExecuteAppend(s: System, run: seq<Action>, a: Action)
    ensures Execute(s, run + [a]) == Step(Execute(s, run), a)
  {
    assert (run + [a])[..|run|] == run;
  }
}
