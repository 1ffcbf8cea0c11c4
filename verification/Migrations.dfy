/**
 The migration graph: registered steps, the breadth-first search for a path, and its application to a
 payload. A migration function may raise, which is a `None`.
 */
module Migrations {
  import opened Wrappers

  /** A payload: its declared version, if it is a string, and everything else. */
  datatype Document = Document(version: Option<string>, body: string)

  datatype Step = Step(source: string, target: string, migrate: Document -> Option<Document>)

  datatype Edge = Edge(source: string, target: string)

  datatype Error =
    | SameVersion | AlreadyRegistered | NoPath(source: string, target: string)
    | VersionMissing | MigrationFailed | VersionNotSet(source: string, target: string) | TargetSchemaViolated

  datatype Derivation = Derivation(
    source: string, target: string, applied: seq<Edge>, original: Document, migrated: Document)

  /** Registered steps in registration order, no two with the same ends. */
  ghost predicate ValidSteps(steps: seq<Step>) {
    && (forall i | 0 <= i < |steps| :: steps[i].source != steps[i].target)
    && forall i, j | 0 <= i < j < |steps| :: EdgeOf(steps[i]) != EdgeOf(steps[j])
  }

  function EdgeOf(step: Step): Edge {
    Edge(step.source, step.target)
  }

  /** A contiguous chain of registered steps; the empty chain stays where it is. */
  ghost predicate Chain(steps: seq<Step>, path: seq<Step>, source: string, target: string) {
    if path == [] then source == target
    else path[0] in steps && path[0].source == source && Chain(steps, path[1..], path[0].target, target)
  }

  lemma {:induction false} ChainSnoc(steps: seq<Step>, path: seq<Step>, step: Step, source: string)
    requires Chain(steps, path, source, step.source) && step in steps
    ensures Chain(steps, path + [step], source, step.target)
  {
    if path == [] {
      assert [step][1..] == [];
    } else {
      ChainSnoc(steps, path[1..], step, path[0].target);
      assert (path + [step])[1..] == path[1..] + [step];
    }
  }

  lemma {:induction false} ChainUnsnoc(steps: seq<Step>, path: seq<Step>, source: string, target: string)
    requires Chain(steps, path, source, target) && path != []
    ensures var last := path[|path| - 1];
            last in steps && last.target == target && Chain(steps, path[..|path| - 1], source, last.source)
  {
    if |path| > 1 {
      ChainUnsnoc(steps, path[1..], path[0].target, target);
      assert path[1..][..|path| - 2] == path[..|path| - 1][1..];
    }
  }

  // ---------------------------------------------------------------- the search invariant

  datatype Entry = Entry(version: string, path: seq<Step>)

  /** `version` can be reached from `source` by a chain of at most `length` steps. */
  ghost predicate Within(steps: seq<Step>, source: string, version: string, length: int) {
    exists path :: Chain(steps, path, source, version) && |path| <= length
  }

  ghost predicate Shortest(steps: seq<Step>, source: string, entry: Entry) {
    Chain(steps, entry.path, source, entry.version) && !Within(steps, source, entry.version, |entry.path| - 1)
  }

  /** Versions seen but not yet waiting in the queue have had all their edges explored. */
  ghost predicate Explored(steps: seq<Step>, visited: set<string>, version: string) {
    forall step | step in steps && step.source == version :: step.target in visited
  }

  ghost predicate Waiting(queue: seq<Entry>, version: string) {
    exists i :: 0 <= i < |queue| && queue[i].version == version
  }

  ghost predicate Levels(queue: seq<Entry>, level: nat) {
    && (forall i | 0 <= i < |queue| :: level <= |queue[i].path| <= level + 1)
    && forall i, j | 0 <= i < j < |queue| :: |queue[i].path| <= |queue[j].path|
  }

  /** Everything within `level` steps has been seen, and the queue holds shortest paths in order. */
  ghost predicate Frontier(steps: seq<Step>, source: string, target: string,
                           queue: seq<Entry>, visited: set<string>, level: nat)
  {
    && source in visited && target !in visited
    && (forall i | 0 <= i < |queue| :: queue[i].version in visited && Shortest(steps, source, queue[i]))
    && Levels(queue, level)
    && (forall version :: Within(steps, source, version, level) ==> version in visited)
    && forall version | version in visited && !Waiting(queue, version) :: Explored(steps, visited, version)
  }

  /** Moving to the next level: whatever is one step further was seen while this level was explored. */
  lemma NextLevel(steps: seq<Step>, source: string, target: string,
                  queue: seq<Entry>, visited: set<string>, level: nat)
    requires Frontier(steps, source, target, queue, visited, level)
    requires forall i | 0 <= i < |queue| :: |queue[i].path| == level + 1
    ensures Frontier(steps, source, target, queue, visited, level + 1)
  {
    forall version | Within(steps, source, version, level + 1) ensures version in visited {
      var path: seq<Step> :| Chain(steps, path, source, version) && |path| <= level + 1;
      if path != [] {
        ChainUnsnoc(steps, path, source, version);
        var before := path[|path| - 1].source;
        assert Within(steps, source, before, level);
        assert before in visited;
        assert forall i | 0 <= i < |queue| :: Shortest(steps, source, queue[i]) && queue[i].version != before;
        assert !Waiting(queue, before);
      }
    }
  }

  /** With nothing left to explore, the versions seen are closed under every step. */
  lemma {:induction false} ClosedContainsChain(steps: seq<Step>, visited: set<string>, path: seq<Step>,
                                               source: string, target: string)
    requires source in visited && forall version | version in visited :: Explored(steps, visited, version)
    requires Chain(steps, path, source, target)
    ensures target in visited
  {
    if path != [] {
      assert Explored(steps, visited, source);
      ClosedContainsChain(steps, visited, path[1..], path[0].target, target);
    }
  }

  function Versions(steps: seq<Step>): set<string> {
    set i | 0 <= i < |steps| :: steps[i].target
  }

  // ---------------------------------------------------------------- applying a path

  /** Runs the steps one after the other and checks the version each one leaves. */
  function ApplyAll(path: seq<Step>, working: Document): Result<Document, Error> {
    if path == [] then Success(working)
    else
      var next := path[0].migrate(working);
      if next.None? then Failure(MigrationFailed)
      else if next.value.version != Some(path[0].target) then Failure(VersionNotSet(path[0].source, path[0].target))
      else ApplyAll(path[1..], next.value)
  }

  function Edges(path: seq<Step>): seq<Edge> {
    seq(|path|, i requires 0 <= i < |path| => EdgeOf(path[i]))
  }

  lemma {:induction false} ApplyAllReaches(steps: seq<Step>, path: seq<Step>, working: Document, source: string, target: string)
    requires Chain(steps, path, source, target) && working.version == Some(source)
    requires ApplyAll(path, working).Success?
    ensures ApplyAll(path, working).value.version == Some(target)
  {
    if path != [] {
      ApplyAllReaches(steps, path[1..], path[0].migrate(working).value, path[0].target, target);
    }
  }

  /** The payload's history along the path: each step's answer to the one before, and of that step's version. */
  ghost predicate History(path: seq<Step>, documents: seq<Document>) {
    && |documents| == |path| + 1
    && forall i | 0 <= i < |path| ::
         path[i].migrate(documents[i]) == Some(documents[i + 1]) && documents[i + 1].version == Some(path[i].target)
  }

  lemma HistoryCons(path: seq<Step>, first: Document, later: seq<Document>)
    requires path != []
    ensures History(path, [first] + later) <==>
              && History(path[1..], later)
              && path[0].migrate(first) == Some(later[0]) && later[0].version == Some(path[0].target)
  {
    var documents := [first] + later;
    assert forall i | 0 <= i < |later| :: documents[i + 1] == later[i];
    if History(path, documents) {
      forall i | 0 <= i < |path| - 1
        ensures path[1..][i].migrate(later[i]) == Some(later[i + 1]) && later[i + 1].version == Some(path[1..][i].target)
      {
        assert path[i + 1].migrate(documents[i + 1]) == Some(documents[i + 2]);
      }
    }
    if History(path[1..], later) && path[0].migrate(first) == Some(later[0]) && later[0].version == Some(path[0].target) {
      forall i | 0 <= i < |path|
        ensures path[i].migrate(documents[i]) == Some(documents[i + 1]) && documents[i + 1].version == Some(path[i].target)
      {
        if 0 < i {
          assert path[1..][i - 1].migrate(later[i - 1]) == Some(later[i]);
        }
      }
    }
  }

  /** Applying a path succeeds exactly with the end of such a history. */
  lemma {:induction false} AppliedIff(path: seq<Step>, working: Document, result: Document)
    ensures ApplyAll(path, working) == Success(result) <==>
              exists documents :: History(path, documents) && documents[0] == working && documents[|path|] == result
  {
    if path == [] {
      assert working == result ==> History(path, [working]) && [working][0] == working;
    } else {
      var next := path[0].migrate(working);
      if next.Some? {
        AppliedIff(path[1..], next.value, result);
      }
      if ApplyAll(path, working) == Success(result) {
        var later :| History(path[1..], later) && later[0] == next.value && later[|path| - 1] == result;
        HistoryCons(path, working, later);
        assert ([working] + later)[|path|] == result;
      }
      if documents :| History(path, documents) && documents[0] == working && documents[|path|] == result {
        assert documents == [working] + documents[1..];
        HistoryCons(path, working, documents[1..]);
        assert documents[1..][|path| - 1] == result;
      }
    }
  }

  // ---------------------------------------------------------------- the registry

  class MigrationRegistry {
    var steps: seq<Step>

    ghost predicate Valid()
      reads this
    {
      ValidSteps(steps)
    }

    constructor ()
      ensures Valid() && steps == []
    {
      steps := [];
    }

    method Register(step: Step) returns (r: Result<(), Error>)
      requires Valid()
      modifies this
      ensures Valid()
      ensures r == if step.source == step.target then Failure(SameVersion)
                   else if exists i :: 0 <= i < |old(steps)| && EdgeOf(old(steps)[i]) == EdgeOf(step)
                     then Failure(AlreadyRegistered)
                   else Success(())
      ensures r == Failure(AlreadyRegistered) <==>
                && step.source != step.target
                && exists i :: 0 <= i < |old(steps)| && old(steps)[i].source == step.source && old(steps)[i].target == step.target
      ensures steps == if r.Success? then old(steps) + [step] else old(steps)
    {
      if step.source == step.target {
        return Failure(SameVersion);
      }
      if exists i :: 0 <= i < |steps| && EdgeOf(steps[i]) == EdgeOf(step) {
        return Failure(AlreadyRegistered);
      }
      steps := steps + [step];
      return Success(());
    }

    /** A shortest chain from `source` to `target`, or the error exactly when there is no chain at all. */
    method FindPath(source: string, target: string) returns (r: Result<seq<Step>, Error>)
      requires Valid() && source != target
      ensures r.Success? ==> r.value != [] && Chain(steps, r.value, source, target)
      ensures r.Success? ==> forall path | Chain(steps, path, source, target) :: |r.value| <= |path|
      ensures r.Failure? <==> !exists path :: Chain(steps, path, source, target)
      ensures r.Failure? ==> r.error == NoPath(source, target)
    {
      hide Frontier, Expanding, Chain;
      var queue := [Entry(source, [])];
      var visited := {source};
      ghost var level: nat := 0;
      StartFrontier(steps, source, target);
      while queue != []
        invariant Frontier(steps, source, target, queue, visited, level)
        decreases Versions(steps) - visited, |queue|
      {
        var current := queue[0];
        HeadLevel(steps, source, target, queue, visited, level);
        if |current.path| == level + 1 {
          NextLevel(steps, source, target, queue, visited, level);
          level := level + 1;
        }
        TakeHead(steps, source, target, queue, visited, level);
        queue := queue[1..];
        ghost var seen := visited;
        ghost var waiting := queue;
        for i := 0 to |steps|
          invariant seen <= visited <= seen + Versions(steps) && (visited == seen ==> queue == waiting)
          invariant Expanding(steps, source, target, queue, visited, level, current, i)
        {
          var step := steps[i];
          if step.source != current.version || step.target in visited {
            SkipEdge(steps, source, target, queue, visited, level, current, i);
            continue;
          }
          var nextPath := current.path + [step];
          ExtendsCurrent(steps, source, target, queue, visited, level, current, i);
          if step.target == target {
            FoundIsShortest(steps, source, target, queue, visited, level, current, nextPath);
            return Success(nextPath);
          }
          AddEdge(steps, source, target, queue, visited, level, current, i);
          visited := visited + {step.target};
          queue := queue + [Entry(step.target, nextPath)];
        }
        EndExpansion(steps, source, target, queue, visited, level, current);
      }
      Exhausted(steps, source, target, visited, level);
      return Failure(NoPath(source, target));
    }

    /**
     The derived copy comes from applying one shortest chain end to end, and carries the target version;
     without an error the original is kept untouched beside it.
     */
    method Derive(payload: Document, target: string, conforms: Document -> bool)
      returns (r: Result<Derivation, Error>, ghost path: seq<Step>)
      requires Valid()
      ensures payload.version.None? <==> r == Failure(VersionMissing)
      ensures payload.version.Some? && r != Failure(NoPath(payload.version.value, target)) ==>
                && Chain(steps, path, payload.version.value, target)
                && (forall other | Chain(steps, other, payload.version.value, target) :: |path| <= |other|)
                && r == if ApplyAll(path, payload).Failure? then Failure(ApplyAll(path, payload).error)
                        else if !conforms(ApplyAll(path, payload).value) then Failure(TargetSchemaViolated)
                        else Success(Derivation(payload.version.value, target, Edges(path), payload,
                                                ApplyAll(path, payload).value))
      ensures payload.version.Some? && r == Failure(NoPath(payload.version.value, target)) ==>
                !exists other :: Chain(steps, other, payload.version.value, target)
      ensures r.Success? ==>
                && r.value.migrated.version == Some(target) && |r.value.applied| == |path|
                && forall i | 0 <= i < |path| :: r.value.applied[i] == Edge(path[i].source, path[i].target)
    {
      path := [];
      if payload.version.None? {
        return Failure(VersionMissing), path;
      }
      var source := payload.version.value;
      var working := payload;
      var applied: seq<Edge> := [];
      if source != target {
        var found := FindPath(source, target);
        if found.Failure? {
          return Failure(found.error), path;
        }
        var chain := found.value;
        path := chain;
        for i := 0 to |chain|
          invariant ApplyAll(path, payload) == ApplyAll(path[i..], working)
          invariant applied == Edges(path)[..i]
        {
          var step := chain[i];
          assert path[i..][0] == step && path[i..][1..] == path[i + 1..];
          var next := step.migrate(working);
          if next.None? {
            return Failure(MigrationFailed), path;
          }
          working := next.value;
          if working.version != Some(step.target) {
            return Failure(VersionNotSet(step.source, step.target)), path;
          }
          applied := applied + [Edge(step.source, step.target)];
        }
      }
      if ApplyAll(path, payload).Success? {
        ApplyAllReaches(steps, path, payload, source, target);
      }
      if !conforms(working) {
        return Failure(TargetSchemaViolated), path;
      }
      assert applied == Edges(path);
      return Success(Derivation(source, target, applied, payload, working)), path;
    }
  }

  // ---------------------------------------------------------------- the search, step by step

  lemma StartFrontier(steps: seq<Step>, source: string, target: string)
    requires source != target
    ensures Frontier(steps, source, target, [Entry(source, [])], {source}, 0)
  {
    var queue := [Entry(source, [])];
    assert Chain(steps, [], source, source);
    assert queue[0].version == source;
    assert Waiting(queue, source);
  }

  lemma HeadLevel(steps: seq<Step>, source: string, target: string,
                  queue: seq<Entry>, visited: set<string>, level: nat)
    requires Frontier(steps, source, target, queue, visited, level) && queue != []
    ensures |queue[0].path| == level || |queue[0].path| == level + 1
    ensures |queue[0].path| == level + 1 ==> forall i | 0 <= i < |queue| :: |queue[i].path| == level + 1
  {}

  lemma TakeHead(steps: seq<Step>, source: string, target: string,
                 queue: seq<Entry>, visited: set<string>, level: nat)
    requires Frontier(steps, source, target, queue, visited, level) && queue != [] && |queue[0].path| == level
    ensures Expanding(steps, source, target, queue[1..], visited, level, queue[0], 0)
  {
    var rest := queue[1..];
    forall version | version in visited && version != queue[0].version && !Waiting(rest, version)
      ensures Explored(steps, visited, version)
    {
      assert forall i | 1 <= i < |queue| :: rest[i - 1].version == queue[i].version;
      assert !Waiting(queue, version);
    }
  }

  lemma ExtendsCurrent(steps: seq<Step>, source: string, target: string, queue: seq<Entry>,
                       visited: set<string>, level: nat, current: Entry, done: int)
    requires Expanding(steps, source, target, queue, visited, level, current, done) && done < |steps|
    requires steps[done].source == current.version
    ensures |current.path| == level
    ensures Chain(steps, current.path + [steps[done]], source, steps[done].target)
  {
    ChainSnoc(steps, current.path, steps[done], source);
  }

  lemma Exhausted(steps: seq<Step>, source: string, target: string, visited: set<string>, level: nat)
    requires Frontier(steps, source, target, [], visited, level)
    ensures !exists path :: Chain(steps, path, source, target)
  {
    forall version | version in visited ensures Explored(steps, visited, version) {
      assert !Waiting([], version);
    }
    if path :| Chain(steps, path, source, target) {
      ClosedContainsChain(steps, visited, path, source, target);
    }
  }

  /** While the edges of `current` are gone through, those before `done` have been explored. */
  ghost predicate Expanding(steps: seq<Step>, source: string, target: string, queue: seq<Entry>,
                            visited: set<string>, level: nat, current: Entry, done: int)
  {
    && 0 <= done <= |steps|
    && source in visited && target !in visited
    && current.version in visited && |current.path| == level && Shortest(steps, source, current)
    && (forall i | 0 <= i < |queue| :: queue[i].version in visited && Shortest(steps, source, queue[i]))
    && Levels(queue, level)
    && (forall version :: Within(steps, source, version, level) ==> version in visited)
    && (forall version | version in visited && version != current.version && !Waiting(queue, version) ::
          Explored(steps, visited, version))
    && forall i | 0 <= i < done :: steps[i].source == current.version ==> steps[i].target in visited
  }

  lemma SkipEdge(steps: seq<Step>, source: string, target: string, queue: seq<Entry>,
                 visited: set<string>, level: nat, current: Entry, done: int)
    requires Expanding(steps, source, target, queue, visited, level, current, done) && done < |steps|
    requires steps[done].source != current.version || steps[done].target in visited
    ensures Expanding(steps, source, target, queue, visited, level, current, done + 1)
  {}

  lemma FoundIsShortest(steps: seq<Step>, source: string, target: string, queue: seq<Entry>,
                        visited: set<string>, level: nat, current: Entry, found: seq<Step>)
    requires exists done :: Expanding(steps, source, target, queue, visited, level, current, done)
    requires |found| == level + 1
    ensures forall path | Chain(steps, path, source, target) :: |found| <= |path|
  {
    forall path | Chain(steps, path, source, target) ensures |found| <= |path| {
      if |path| <= level {
        assert Within(steps, source, target, level);
      }
    }
  }

  lemma NewEntryIsShortest(steps: seq<Step>, source: string, target: string, queue: seq<Entry>,
                           visited: set<string>, level: nat, current: Entry, done: int)
    requires Expanding(steps, source, target, queue, visited, level, current, done) && done < |steps|
    requires var step := steps[done];
             step.target !in visited && Chain(steps, current.path + [step], source, step.target)
    ensures Shortest(steps, source, Entry(steps[done].target, current.path + [steps[done]]))
  {
    hide Chain, Levels, Explored, Waiting;
    assert !Within(steps, source, steps[done].target, level);
  }

  lemma AddEdge(steps: seq<Step>, source: string, target: string, queue: seq<Entry>,
                visited: set<string>, level: nat, current: Entry, done: int)
    requires Expanding(steps, source, target, queue, visited, level, current, done) && done < |steps|
    requires var step := steps[done];
             && step.source == current.version && step.target !in visited && step.target != target
             && Chain(steps, current.path + [step], source, step.target)
    ensures var step := steps[done];
            Expanding(steps, source, target, queue + [Entry(step.target, current.path + [step])],
                      visited + {step.target}, level, current, done + 1)
  {
    hide Chain, Shortest, Within;
    var step := steps[done];
    var entry := Entry(step.target, current.path + [step]);
    var longer := queue + [entry];
    NewEntryIsShortest(steps, source, target, queue, visited, level, current, done);
    forall i | 0 <= i < |longer|
      ensures longer[i].version in visited + {step.target} && Shortest(steps, source, longer[i])
    {
      assert i < |queue| ==> longer[i] == queue[i];
    }
    forall version | version in visited + {step.target} && version != current.version && !Waiting(longer, version)
      ensures Explored(steps, visited + {step.target}, version)
    {
      assert longer[|queue|].version == step.target;
      assert forall i | 0 <= i < |queue| :: longer[i].version == queue[i].version;
    }
  }

  lemma EndExpansion(steps: seq<Step>, source: string, target: string, queue: seq<Entry>,
                     visited: set<string>, level: nat, current: Entry)
    requires Expanding(steps, source, target, queue, visited, level, current, |steps|)
    ensures Frontier(steps, source, target, queue, visited, level)
  {
    assert Explored(steps, visited, current.version);
  }
}
