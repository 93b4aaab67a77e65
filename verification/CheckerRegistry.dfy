/** Running a list of named checkers: every name is resolved before any checker runs. */
module CheckerRegistry {
  import opened Collections
  import opened CheckResults

  /** What one checker gives back; an error is only logged. */
  datatype CheckReply = CheckReply(results: seq<CheckResult>, error: Option<string>)

  datatype CheckOutcome = Checked(results: seq<CheckResult>) | UnknownChecker(name: string)

  function ConcatResults(run: string -> CheckReply, names: seq<string>): seq<CheckResult> {
    if names == [] then []
    else ConcatResults(run, names[..|names|-1]) + run(names[|names|-1]).results
  }

  /** Concatenation keeps the order of the names: a longer list only adds at the end. */
  lemma {:induction false} ConcatAppend(run: string -> CheckReply, a: seq<string>, b: seq<string>)
    ensures ConcatResults(run, a + b) == ConcatResults(run, a) + ConcatResults(run, b)
  {
    if b == [] {
      assert a + b == a;
    } else {
      var n := |b| - 1;
      ConcatAppend(run, a, b[..n]);
      assert (a + b)[..|a + b|-1] == a + b[..n];
      assert (a + b)[|a + b|-1] == b[n];
      Regroup(ConcatResults(run, a), ConcatResults(run, b[..n]), run(b[n]).results);
    }
  }

  predicate FirstUnknown(registry: set<string>, names: seq<string>, k: int) {
    0 <= k < |names| && names[k] !in registry && forall j :: 0 <= j < k ==> names[j] in registry
  }

  /** The results from `place` to `next` are those of the checker with this name. */
  predicate Stands(run: string -> CheckReply, name: string, results: seq<CheckResult>, place: nat, next: nat) {
    && next == place + |run(name).results| && next <= |results|
    && results[place..next] == run(name).results
  }

  /** The results are those of each checker in turn: the first checker's begin at 0, each next one's where
      those before it end, and the last one's end with the list. */
  ghost predicate LaidEndToEnd(run: string -> CheckReply, names: seq<string>, results: seq<CheckResult>,
                               places: seq<nat>)
  {
    && |places| == |names| + 1 && places[0] == 0 && places[|names|] == |results|
    && forall k :: 0 <= k < |names| ==> Stands(run, names[k], results, places[k], places[k+1])
  }

  lemma StillStands(run: string -> CheckReply, name: string, results: seq<CheckResult>, more: seq<CheckResult>,
                    place: nat, next: nat)
    requires Stands(run, name, results, place, next)
    ensures Stands(run, name, results + more, place, next)
  {
    assert (results + more)[place..next] == results[place..next];
  }

  lemma OneMoreChecker(run: string -> CheckReply, names: seq<string>, results: seq<CheckResult>, places: seq<nat>,
                       name: string)
    requires LaidEndToEnd(run, names, results, places)
    ensures var more := results + run(name).results;
      LaidEndToEnd(run, names + [name], more, places + [|more|])
  {
    var more, n := results + run(name).results, |names|;
    assert more[|results|..] == run(name).results;
    assert Stands(run, name, more, places[n], |more|);
    forall k | 0 <= k < n
      ensures Stands(run, names[k], more, places[k], places[k+1])
    {
      StillStands(run, names[k], results, run(name).results, places[k], places[k+1]);
    }
  }

  /** `ran` lists the checkers that ran, in order: all of them, or, if a name is unknown, none. Every
      result of every checker is reported once, in order, whether or not the checker gave an error. */
  method Check(registry: set<string>, run: string -> CheckReply, names: seq<string>)
    returns (outcome: CheckOutcome, ran: seq<string>)
    ensures (forall k :: 0 <= k < |names| ==> names[k] in registry) ==>
      && outcome.Checked? && outcome.results == ConcatResults(run, names) && ran == names
      && exists places :: LaidEndToEnd(run, names, outcome.results, places)
    ensures forall k :: FirstUnknown(registry, names, k) ==> outcome == UnknownChecker(names[k]) && ran == []
  {
    ran := [];
    var checkers: seq<string> := [];
    for i := 0 to |names|
      invariant checkers == names[..i]
      invariant forall j :: 0 <= j < i ==> names[j] in registry
    {
      if names[i] in registry {
        checkers := checkers + [names[i]];
      } else {
        outcome := UnknownChecker(names[i]);
        return;
      }
    }
    assert checkers == names;

    var results: seq<CheckResult> := [];
    ghost var places: seq<nat> := [0];
    for i := 0 to |checkers|
      invariant ran == checkers[..i]
      invariant results == ConcatResults(run, checkers[..i])
      invariant LaidEndToEnd(run, checkers[..i], results, places)
    {
      var reply := run(checkers[i]);
      OneMoreChecker(run, checkers[..i], results, places, checkers[i]);
      ran := ran + [checkers[i]];
      results := results + reply.results;
      places := places + [|results|];
      assert checkers[..i+1] == checkers[..i] + [checkers[i]];
      assert checkers[..i+1][..i] == checkers[..i];
    }
    assert checkers[..|checkers|] == checkers;
    outcome := Checked(results);
  }
}
