/**
  The turn-order session: names are drawn without replacement from a shuffled
  pool (`state.turnPool`) into the called list (`state.turnPicked`); the pool
  is rebuilt whenever the candidate key (`state.turnSourceKey`) changes.
*/
module Turns {
  import opened ListOps
  import opened Documents
  import opened Candidates

  datatype TurnOutcome =
    | NoCandidates        // empty candidate list: an alert, nothing changes
    | Completed           // the pool gave no name: the "turns completed" modal
    | Called(name: string)

  /** `kept` is `origin` with at most some blank names missing. */
  ghost predicate SameUpToBlanks(kept: multiset<string>, origin: multiset<string>)
  {
    kept <= origin && forall x :: x != "" ==> kept[x] == origin[x]
  }

  /** One `handleTurnNext()` from state (pool, picked, key, origin) to state
      (pool', picked', key', origin'): an empty candidate list changes nothing;
      otherwise a changed or missing key reshuffles the candidates, and the
      first pooled name, unless blank, moves to the end of the called names. */
  ghost predicate NextStep(pool: seq<string>, picked: seq<string>, key: string, origin: seq<string>,
                           c: Candidates, draws: seq<nat>,
                           pool': seq<string>, picked': seq<string>, key': string, origin': seq<string>,
                           out: TurnOutcome)
    requires ValidDraws(draws, |c.list|)
  {
    if c.list == [] then
      out == NoCandidates && pool' == pool && picked' == picked && key' == key && origin' == origin
    else
      var reset := NeedsReset(key, c);
      var p := if reset then FisherYates(c.list, draws, |c.list| - 1) else pool;
      var q := if reset then [] else picked;
      key' == c.key
      && origin' == (if reset then c.list else origin)
      && Drawn(p, q, pool', picked', out)
  }

  /** `!state.turnSourceKey || state.turnSourceKey !== key`. */
  predicate NeedsReset(key: string, c: Candidates)
  {
    key == "" || key != c.key
  }

  /** Taking one name from pool `p` onto called names `q`. */
  predicate Drawn(p: seq<string>, q: seq<string>, pool': seq<string>, picked': seq<string>, out: TurnOutcome)
  {
    if p == [] then out == Completed && pool' == [] && picked' == q
    else if p[0] == "" then out == Completed && pool' == p[1..] && picked' == q
    else out == Called(p[0]) && pool' == p[1..] && picked' == q + [p[0]]
  }

  class TurnSession {
    var pool: seq<string>
    var picked: seq<string>
    var sourceKey: string
    var excluded: set<string>
    /** The candidate list of the last reset. */
    ghost var origin: seq<string>

    /** Called and waiting names together are the list of the last reset, save
        for blank names, which the session drops and never calls. */
    ghost predicate Valid()
      reads this
    {
      SameUpToBlanks(multiset(picked) + multiset(pool), multiset(origin)) && "" !in picked
    }

    constructor ()
      ensures pool == [] && picked == [] && sourceKey == "" && excluded == {} && origin == []
      ensures Valid()
    {
      pool, picked, sourceKey, excluded := [], [], "", {};
      origin := [];
    }

    /** `resetTurnState(list, key)`: a fresh shuffle of the list, nobody called yet. */
    method Reset(list: seq<string>, key: string, draws: seq<nat>)
      requires ValidDraws(draws, |list|)
      modifies this
      ensures pool == FisherYates(list, draws, |list| - 1) && picked == [] && sourceKey == key
      ensures origin == list && excluded == old(excluded)
      ensures Valid()
    {
      pool := Shuffle(list, draws);
      picked := [];
      sourceKey := key;
      origin := list;
    }

    /** `handleTurnNext()`: rebuild the pool when the key changed, then call the
        pool's first name. */
    method Next(sel: Selection, classrooms: seq<Classroom>, draws: seq<nat>) returns (out: TurnOutcome)
      requires Valid()
      requires ValidDraws(draws, |TurnCandidates(sel, classrooms, excluded).list|)
      modifies this
      ensures Valid() && excluded == old(excluded)
      ensures NextStep(old(pool), old(picked), old(sourceKey), old(origin),
                       TurnCandidates(sel, classrooms, old(excluded)), draws,
                       pool, picked, sourceKey, origin, out)
      ensures out.Called? ==> out.name != "" && out.name in origin
      ensures out == Completed && "" !in origin ==> pool == [] && multiset(picked) == multiset(origin)
    {
      var c := TurnCandidates(sel, classrooms, excluded);
      out := Advance(c, draws);
    }

    /** The body of `handleTurnNext()` once the candidates are known. A blank
        first name is dropped and reported as the end of the turns, as the
        falsy test on it does. */
    method Advance(c: Candidates, draws: seq<nat>) returns (out: TurnOutcome)
      requires Valid()
      requires ValidDraws(draws, |c.list|)
      modifies this
      ensures Valid() && excluded == old(excluded)
      ensures NextStep(old(pool), old(picked), old(sourceKey), old(origin), c, draws,
                       pool, picked, sourceKey, origin, out)
      ensures out.Called? ==> out.name != "" && out.name in origin
      ensures out == Completed && "" !in origin ==> pool == [] && multiset(picked) == multiset(origin)
    {
      if c.list == [] {
        return NoCandidates;
      }
      if NeedsReset(sourceKey, c) {
        Reset(c.list, c.key, draws);
      }
      out := Draw();
    }

    /** `state.turnPool.shift()` and, unless the name is blank, `state.turnPicked.push`. */
    method Draw() returns (out: TurnOutcome)
      requires Valid()
      modifies this
      ensures Valid()
      ensures Drawn(old(pool), old(picked), pool, picked, out)
      ensures sourceKey == old(sourceKey) && origin == old(origin) && excluded == old(excluded)
      ensures out.Called? ==> out.name != "" && out.name in origin
      ensures out == Completed && "" !in origin ==> pool == [] && multiset(picked) == multiset(origin)
    {
      if pool == [] {
        out := Completed;
        if "" !in origin {
          CompletedCallsEveryone(picked, pool, origin);
        }
      } else if pool[0] == "" {
        DropBlank(picked, pool, origin);
        pool := pool[1..];
        out := Completed;
      } else {
        var next := pool[0];
        CallFirst(picked, pool, origin);
        picked, pool := picked + [next], pool[1..];
        out := Called(next);
      }
    }

    /** `startTurns()`: always reset, then call the first name. */
    method Start(sel: Selection, classrooms: seq<Classroom>, draws: seq<nat>) returns (out: TurnOutcome)
      requires Valid()
      requires ValidDraws(draws, |TurnCandidates(sel, classrooms, excluded).list|)
      modifies this
      ensures Valid() && excluded == old(excluded)
      ensures
        var c := TurnCandidates(sel, classrooms, old(excluded));
        c.list == [] ==>
          out == NoCandidates && pool == old(pool) && picked == old(picked)
          && sourceKey == old(sourceKey) && origin == old(origin)
      ensures
        var c := TurnCandidates(sel, classrooms, old(excluded));
        var p := FisherYates(c.list, draws, |c.list| - 1);
        c.list != [] ==>
          sourceKey == c.key && origin == c.list
          && (p[0] == "" ==> out == Completed && pool == p[1..] && picked == [])
          && (p[0] != "" ==> out == Called(p[0]) && pool == p[1..] && picked == [p[0]])
    {
      var c := TurnCandidates(sel, classrooms, excluded);
      if c.list == [] {
        return NoCandidates;
      }
      Reset(c.list, c.key, draws);
      out := Advance(c, draws);
    }

    /** `handleTurnReset()`: reshuffle the current candidates. */
    method ResetTurns(sel: Selection, classrooms: seq<Classroom>, draws: seq<nat>) returns (ok: bool)
      requires ValidDraws(draws, |TurnCandidates(sel, classrooms, excluded).list|)
      modifies this
      ensures
        var c := TurnCandidates(sel, classrooms, old(excluded));
        ok <==> c.list != []
      ensures
        var c := TurnCandidates(sel, classrooms, old(excluded));
        ok ==> pool == FisherYates(c.list, draws, |c.list| - 1) && picked == [] && sourceKey == c.key && origin == c.list
      ensures !ok ==> pool == old(pool) && picked == old(picked) && sourceKey == old(sourceKey) && origin == old(origin)
      ensures ok ==> Valid()
      ensures excluded == old(excluded)
    {
      var c := TurnCandidates(sel, classrooms, excluded);
      if c.list == [] {
        return false;
      }
      Reset(c.list, c.key, draws);
      ok := true;
    }

    /** Tapping a chip: a name moves in or out of the exclusions; the pool, the
        called names and the stored key stay as they are. */
    method ToggleExcluded(name: string)
      modifies this
      ensures excluded == if name in old(excluded) then old(excluded) - {name} else old(excluded) + {name}
      ensures pool == old(pool) && picked == old(picked) && sourceKey == old(sourceKey) && origin == old(origin)
    {
      if name in excluded {
        excluded := excluded - {name};
      } else {
        excluded := excluded + {name};
      }
    }

    /** `state.turnExcluded.clear()`. */
    method ClearExcluded()
      modifies this
      ensures excluded == {}
      ensures pool == old(pool) && picked == old(picked) && sourceKey == old(sourceKey) && origin == old(origin)
    {
      excluded := {};
    }
  }

  /** Calling the first pooled name keeps the called and waiting names together. */
  lemma CallFirst(picked: seq<string>, pool: seq<string>, origin: seq<string>)
    requires SameUpToBlanks(multiset(picked) + multiset(pool), multiset(origin)) && "" !in picked
    requires pool != [] && pool[0] != ""
    ensures SameUpToBlanks(multiset(picked + [pool[0]]) + multiset(pool[1..]), multiset(origin))
    ensures "" !in picked + [pool[0]]
    ensures pool[0] in origin
  {
    assert pool == [pool[0]] + pool[1..];
    assert multiset(picked + [pool[0]]) + multiset(pool[1..]) == multiset(picked) + multiset(pool);
    assert multiset(pool)[pool[0]] > 0;
    assert (multiset(picked) + multiset(pool))[pool[0]] > 0;
    assert pool[0] in multiset(origin);
  }

  /** Dropping a blank first name loses only that blank; it was in the list. */
  lemma DropBlank(picked: seq<string>, pool: seq<string>, origin: seq<string>)
    requires SameUpToBlanks(multiset(picked) + multiset(pool), multiset(origin))
    requires pool != [] && pool[0] == ""
    ensures SameUpToBlanks(multiset(picked) + multiset(pool[1..]), multiset(origin))
    ensures "" in origin
  {
    assert pool == [pool[0]] + pool[1..];
    assert multiset(pool) == multiset{""} + multiset(pool[1..]);
    assert multiset(pool)[""] > 0;
    assert (multiset(picked) + multiset(pool))[""] > 0;
    assert "" in multiset(origin);
  }

  /** Once the pool is empty and no blank name was in the list, every name of
      the list has been called exactly as often as it occurs. */
  lemma CompletedCallsEveryone(picked: seq<string>, pool: seq<string>, origin: seq<string>)
    requires SameUpToBlanks(multiset(picked) + multiset(pool), multiset(origin)) && "" !in picked
    requires pool == [] && "" !in origin
    ensures multiset(picked) == multiset(origin)
  {
    assert multiset(pool) == multiset{};
    forall x ensures multiset(picked)[x] == multiset(origin)[x] {
      if x == "" {
        assert multiset(picked)[x] == 0;
      }
    }
  }

  /** A session whose stored key is the current key keeps its pool when only the
      exclusions changed in between: the exclusions never force a reshuffle. */
  lemma ExclusionsKeepSession(sel: Selection, classrooms: seq<Classroom>, before: set<string>, after: set<string>, storedKey: string)
    requires storedKey == TurnCandidates(sel, classrooms, before).key
    ensures !(storedKey == "" || storedKey != TurnCandidates(sel, classrooms, after).key)
  {
    TurnKeyIgnoresExclusions(sel, classrooms, classrooms, before, after);
  }
}
