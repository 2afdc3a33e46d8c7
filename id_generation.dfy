/**
 * Identifier generation for the elements of one role in one document: a counter
 * object yielding prefix + 1, prefix + 2, ..., and the loop that hands the first
 * draw not yet in use to each element that has no ID attribute.
 */
module IdGeneration {
  import opened Decimal
  import opened AltoXml

  /** The identifier a generator with this prefix yields when its counter is n. */
  function IdFor(prefix: string, n: nat): string
  {
    prefix + NatToString(n)
  }

  /** A generator never yields the same identifier for two counter values. */
  lemma IdForInjective(prefix: string, m: nat, n: nat)
    requires IdFor(prefix, m) == IdFor(prefix, n)
    ensures m == n
  {
    assert NatToString(m) == IdFor(prefix, m)[|prefix|..];
    assert NatToString(n) == IdFor(prefix, n)[|prefix|..];
    NatToStringInjective(m, n);
  }

  /** A counter with a fixed prefix; each draw returns prefix + counter and then increments it. */
  class IdGenerator {
    const prefix: string
    var counter: nat

    constructor (prefix: string)
      ensures this.prefix == prefix && counter == 1
    {
      this.prefix := prefix;
      counter := 1;
    }

    method Generate() returns (id: string)
      modifies this`counter
      ensures id == IdFor(prefix, old(counter))
      ensures counter == old(counter) + 1
    {
      id := prefix + NatToString(counter);
      counter := counter + 1;
    }
  }

  /** A fresh generator yields prefix1, prefix2, prefix3, ... */
  method FreshGeneratorSequence(prefix: string) returns (first: string, second: string, third: string)
    ensures first == prefix + "1" && second == prefix + "2" && third == prefix + "3"
  {
    var gen := new IdGenerator(prefix);
    first := gen.Generate();
    second := gen.Generate();
    third := gen.Generate();
  }

  /** The values of the ID attributes present among the elements. */
  function UsedIds(elements: seq<Attributes>): set<string>
  {
    set k | 0 <= k < |elements| && !HasNoId(elements[k]) :: elements[k][IdKey]
  }

  // ---------------------------------------------------------------------------
  // The first free draw

  ghost function MaxLength(ids: set<string>): (m: nat)
    ensures forall id :: id in ids ==> |id| <= m
    decreases ids
  {
    if ids == {} then 0
    else
      var id :| id in ids;
      var rest := MaxLength(ids - {id});
      if |id| > rest then |id| else rest
  }

  /** Only counters below 10^(longest used identifier) can collide with a used identifier. */
  lemma UsedBelowBound(prefix: string, used: set<string>, n: nat)
    requires IdFor(prefix, n) in used
    ensures n < Pow10(MaxLength(used))
  {
    if n >= Pow10(MaxLength(used)) {
      NatToStringLength(n, MaxLength(used));
    }
  }

  /**
   * The counter value the draw loop stops at when it starts at c: the least n >= c
   * whose identifier is not in `used`. It exists because `used` is finite.
   */
  ghost function FirstFree(prefix: string, used: set<string>, c: nat): (n: nat)
    ensures c <= n
    ensures IdFor(prefix, n) !in used
    ensures forall m :: c <= m < n ==> IdFor(prefix, m) in used
    decreases Pow10(MaxLength(used)) - c
  {
    if IdFor(prefix, c) !in used then c
    else
      UsedBelowBound(prefix, used, c);
      FirstFree(prefix, used, c + 1)
  }

  // ---------------------------------------------------------------------------
  // What one pass over the elements of a role computes

  /**
   * The state after a prefix of the elements: their attribute maps as the pass
   * leaves them, the set of identifiers in use, the generator's counter, and for
   * each element the counter value it was given (0 for one that kept its ID).
   */
  datatype FillState = FillState(done: seq<Attributes>, used: set<string>, counter: nat, numbers: seq<nat>)

  function Start(used: set<string>, counter: nat): FillState
  {
    FillState([], used, counter, [])
  }

  /** One element: kept if it has an ID, otherwise given the first free draw. */
  ghost function Step(s: FillState, a: Attributes, prefix: string): FillState
  {
    if !HasNoId(a) then s.(done := s.done + [a], numbers := s.numbers + [0])
    else
      var n := FirstFree(prefix, s.used, s.counter);
      var id := IdFor(prefix, n);
      FillState(s.done + [a[IdKey := id]], s.used + {id}, n + 1, s.numbers + [n])
  }

  ghost function FillFrom(s: FillState, xs: seq<Attributes>, prefix: string): FillState
    decreases |xs|
  {
    if xs == [] then s else Step(FillFrom(s, xs[..|xs| - 1], prefix), xs[|xs| - 1], prefix)
  }

  /** The pass over xs with a generator whose counter starts at c0. */
  ghost function Fill(xs: seq<Attributes>, prefix: string, c0: nat): FillState
  {
    FillFrom(Start(UsedIds(xs), c0), xs, prefix)
  }

  ghost function NewIds(xs: seq<Attributes>, prefix: string, numbers: seq<nat>): set<string>
  {
    set k | 0 <= k < |xs| && k < |numbers| && HasNoId(xs[k]) :: IdFor(prefix, numbers[k])
  }

  /** Elements that had an ID are untouched. */
  ghost predicate Kept(xs: seq<Attributes>, s: FillState)
    requires |s.done| == |xs|
  {
    forall k :: 0 <= k < |xs| && !HasNoId(xs[k]) ==> s.done[k] == xs[k]
  }

  /** The others gain exactly an ID of the form prefix + N, N a draw whose ID was not among used0. */
  ghost predicate Gained(xs: seq<Attributes>, prefix: string, used0: set<string>, c0: nat, s: FillState)
    requires |s.done| == |xs| && |s.numbers| == |xs|
  {
    forall k :: 0 <= k < |xs| && HasNoId(xs[k]) ==>
      && c0 <= s.numbers[k] < s.counter
      && s.done[k] == xs[k][IdKey := IdFor(prefix, s.numbers[k])]
      && IdFor(prefix, s.numbers[k]) !in used0
  }

  /** The draws increase in document order. */
  ghost predicate Increasing(xs: seq<Attributes>, s: FillState)
    requires |s.numbers| == |xs|
  {
    forall j, k :: 0 <= j < k < |xs| && HasNoId(xs[j]) && HasNoId(xs[k]) ==> s.numbers[j] < s.numbers[k]
  }

  /** Every counter value from c0 on that was passed over was in use before, or was assigned. */
  ghost predicate NoneSkipped(xs: seq<Attributes>, prefix: string, used0: set<string>, c0: nat, s: FillState)
    requires |s.numbers| == |xs|
  {
    forall m :: c0 <= m < s.counter ==>
      IdFor(prefix, m) in used0 || exists k :: 0 <= k < |xs| && HasNoId(xs[k]) && s.numbers[k] == m
  }

  /**
   * The invariant of the pass, relative to the identifiers used0 present at its start
   * and the initial counter c0; the used set is used0 plus everything assigned.
   */
  ghost predicate Assigned(xs: seq<Attributes>, prefix: string, used0: set<string>, c0: nat, s: FillState)
  {
    && |s.done| == |xs| && |s.numbers| == |xs|
    && c0 <= s.counter
    && Kept(xs, s)
    && Gained(xs, prefix, used0, c0, s)
    && Increasing(xs, s)
    && s.used == used0 + NewIds(xs, prefix, s.numbers)
    && NoneSkipped(xs, prefix, used0, c0, s)
  }

  /** An element that has an ID keeps it and consumes no draw. */
  lemma StepKeeps(xs: seq<Attributes>, a: Attributes, prefix: string, used0: set<string>, c0: nat, s: FillState)
    requires Assigned(xs, prefix, used0, c0, s)
    requires !HasNoId(a)
    ensures Assigned(xs + [a], prefix, used0, c0, Step(s, a, prefix))
  {
    var ys := xs + [a];
    var t := Step(s, a, prefix);
    assert forall k :: 0 <= k < |xs| ==> ys[k] == xs[k] && t.done[k] == s.done[k] && t.numbers[k] == s.numbers[k];
    assert NewIds(ys, prefix, t.numbers) == NewIds(xs, prefix, s.numbers);
    forall m | c0 <= m < t.counter
      ensures IdFor(prefix, m) in used0 || exists k :: 0 <= k < |ys| && HasNoId(ys[k]) && t.numbers[k] == m
    {
      if IdFor(prefix, m) !in used0 {
        var k :| 0 <= k < |xs| && HasNoId(xs[k]) && s.numbers[k] == m;
        assert ys[k] == xs[k] && t.numbers[k] == m;
      }
    }
  }

  /** A counter value at or above the current counter whose ID is in use was in use before the pass. */
  lemma UsedAboveCounter(xs: seq<Attributes>, prefix: string, used0: set<string>, c0: nat, s: FillState, m: nat)
    requires Assigned(xs, prefix, used0, c0, s)
    requires s.counter <= m && IdFor(prefix, m) in s.used
    ensures IdFor(prefix, m) in used0
  {
    if IdFor(prefix, m) !in used0 {
      assert IdFor(prefix, m) in NewIds(xs, prefix, s.numbers);
      var k :| 0 <= k < |xs| && k < |s.numbers| && HasNoId(xs[k]) && IdFor(prefix, s.numbers[k]) == IdFor(prefix, m);
      IdForInjective(prefix, s.numbers[k], m);
      assert false;
    }
  }

  lemma NewIdsAppend(xs: seq<Attributes>, a: Attributes, prefix: string, numbers: seq<nat>, n: nat)
    requires |numbers| == |xs| && HasNoId(a)
    ensures NewIds(xs + [a], prefix, numbers + [n]) == NewIds(xs, prefix, numbers) + {IdFor(prefix, n)}
  {
    var ys, ns := xs + [a], numbers + [n];
    assert forall k :: 0 <= k < |xs| ==> ys[k] == xs[k] && ns[k] == numbers[k];
    assert HasNoId(ys[|xs|]) && ns[|xs|] == n;
  }

  lemma StepAssignsSkipped(xs: seq<Attributes>, a: Attributes, prefix: string, used0: set<string>, c0: nat, s: FillState)
    requires Assigned(xs, prefix, used0, c0, s)
    requires HasNoId(a)
    ensures var t := Step(s, a, prefix); |t.numbers| == |xs + [a]| && NoneSkipped(xs + [a], prefix, used0, c0, t)
  {
    var ys := xs + [a];
    var t := Step(s, a, prefix);
    var n := FirstFree(prefix, s.used, s.counter);
    assert t.numbers == s.numbers + [n] && t.counter == n + 1;
    forall m | c0 <= m < t.counter
      ensures IdFor(prefix, m) in used0 || exists k :: 0 <= k < |ys| && HasNoId(ys[k]) && t.numbers[k] == m
    {
      if m == n {
        assert HasNoId(ys[|xs|]) && t.numbers[|xs|] == m;
      } else if m < s.counter {
        if IdFor(prefix, m) !in used0 {
          var k :| 0 <= k < |xs| && HasNoId(xs[k]) && s.numbers[k] == m;
          assert ys[k] == xs[k] && t.numbers[k] == m;
        }
      } else {
        UsedAboveCounter(xs, prefix, used0, c0, s, m);
      }
    }
  }

  lemma StepAssignsGained(xs: seq<Attributes>, a: Attributes, prefix: string, used0: set<string>, c0: nat, s: FillState)
    requires Assigned(xs, prefix, used0, c0, s)
    requires HasNoId(a)
    ensures var t := Step(s, a, prefix);
      && |t.done| == |xs + [a]| && |t.numbers| == |xs + [a]|
      && Kept(xs + [a], t) && Gained(xs + [a], prefix, used0, c0, t) && Increasing(xs + [a], t)
  {
    var ys := xs + [a];
    var t := Step(s, a, prefix);
    var n := FirstFree(prefix, s.used, s.counter);
    assert t.numbers == s.numbers + [n] && t.done == s.done + [a[IdKey := IdFor(prefix, n)]] && t.counter == n + 1;
    assert forall k :: 0 <= k < |xs| ==> ys[k] == xs[k] && t.done[k] == s.done[k] && t.numbers[k] == s.numbers[k];
    assert IdFor(prefix, n) !in used0;
  }

  /** An element without ID receives the first free draw, which keeps the invariant. */
  lemma StepAssigns(xs: seq<Attributes>, a: Attributes, prefix: string, used0: set<string>, c0: nat, s: FillState)
    requires Assigned(xs, prefix, used0, c0, s)
    requires HasNoId(a)
    ensures Assigned(xs + [a], prefix, used0, c0, Step(s, a, prefix))
  {
    var n := FirstFree(prefix, s.used, s.counter);
    StepAssignsGained(xs, a, prefix, used0, c0, s);
    StepAssignsSkipped(xs, a, prefix, used0, c0, s);
    NewIdsAppend(xs, a, prefix, s.numbers, n);
  }

  lemma StepAssigned(xs: seq<Attributes>, a: Attributes, prefix: string, used0: set<string>, c0: nat, s: FillState)
    requires Assigned(xs, prefix, used0, c0, s)
    ensures Assigned(xs + [a], prefix, used0, c0, Step(s, a, prefix))
  {
    if HasNoId(a) {
      StepAssigns(xs, a, prefix, used0, c0, s);
    } else {
      StepKeeps(xs, a, prefix, used0, c0, s);
    }
  }

  lemma {:induction false} FillFromAssigned(xs: seq<Attributes>, prefix: string, used0: set<string>, c0: nat)
    ensures Assigned(xs, prefix, used0, c0, FillFrom(Start(used0, c0), xs, prefix))
    decreases |xs|
  {
    if xs != [] {
      var ys := xs[..|xs| - 1];
      FillFromAssigned(ys, prefix, used0, c0);
      StepAssigned(ys, xs[|xs| - 1], prefix, used0, c0, FillFrom(Start(used0, c0), ys, prefix));
      assert ys + [xs[|xs| - 1]] == xs;
    }
  }

  // ---------------------------------------------------------------------------
  // Properties of one pass

  /** Elements that already had an ID attribute keep all their attributes. */
  lemma FillKeepsExisting(xs: seq<Attributes>, prefix: string, c0: nat)
    ensures |Fill(xs, prefix, c0).done| == |xs|
    ensures forall k :: 0 <= k < |xs| && !HasNoId(xs[k]) ==> Fill(xs, prefix, c0).done[k] == xs[k]
  {
    FillFromAssigned(xs, prefix, UsedIds(xs), c0);
  }

  /**
   * An element without ID gains the attribute ID = prefix + N for a counter value
   * N >= c0, and nothing else; the values N increase in document order.
   */
  lemma FillAssignsMissing(xs: seq<Attributes>, prefix: string, c0: nat)
    ensures var s := Fill(xs, prefix, c0);
      && |s.done| == |xs| && |s.numbers| == |xs|
      && (forall k :: 0 <= k < |xs| && HasNoId(xs[k]) ==>
            c0 <= s.numbers[k] && s.done[k] == xs[k][IdKey := IdFor(prefix, s.numbers[k])])
      && (forall j, k :: 0 <= j < k < |xs| && HasNoId(xs[j]) && HasNoId(xs[k]) ==> s.numbers[j] < s.numbers[k])
  {
    FillFromAssigned(xs, prefix, UsedIds(xs), c0);
  }

  /** After the pass every element has an ID attribute. */
  lemma FillComplete(xs: seq<Attributes>, prefix: string, c0: nat)
    ensures forall k :: 0 <= k < |Fill(xs, prefix, c0).done| ==> !HasNoId(Fill(xs, prefix, c0).done[k])
  {
    FillFromAssigned(xs, prefix, UsedIds(xs), c0);
  }

  /**
   * A newly assigned ID differs from every ID the role had before the pass and
   * from every other ID assigned by the pass.
   */
  lemma FillUnique(xs: seq<Attributes>, prefix: string, c0: nat)
    ensures var d := Fill(xs, prefix, c0).done;
      && |d| == |xs|
      && (forall k :: 0 <= k < |d| ==> IdKey in d[k])
      && forall j, k :: 0 <= j < |xs| && 0 <= k < |xs| && j != k && HasNoId(xs[k]) ==>
        d[k][IdKey] !in UsedIds(xs) && d[j][IdKey] != d[k][IdKey]
  {
    var s := Fill(xs, prefix, c0);
    FillFromAssigned(xs, prefix, UsedIds(xs), c0);
    forall j, k | 0 <= j < |xs| && 0 <= k < |xs| && j != k && HasNoId(xs[k])
      ensures s.done[k][IdKey] !in UsedIds(xs) && s.done[j][IdKey] != s.done[k][IdKey]
    {
      if !HasNoId(xs[j]) {
        assert s.done[j][IdKey] in UsedIds(xs);
      } else if s.done[j][IdKey] == s.done[k][IdKey] {
        IdForInjective(prefix, s.numbers[j], s.numbers[k]);
        assert false;
      }
    }
  }

  /**
   * No draw is skipped without cause: every counter value from c0 up to the
   * generator's final counter belonged to an ID already present, or was assigned.
   */
  lemma FillSkipsOnlyUsed(xs: seq<Attributes>, prefix: string, c0: nat, m: nat)
    requires c0 <= m < Fill(xs, prefix, c0).counter
    ensures |Fill(xs, prefix, c0).done| == |xs|
    ensures forall k :: 0 <= k < |xs| ==> IdKey in Fill(xs, prefix, c0).done[k]
    ensures IdFor(prefix, m) in UsedIds(xs) ||
      exists k :: 0 <= k < |xs| && HasNoId(xs[k]) && Fill(xs, prefix, c0).done[k][IdKey] == IdFor(prefix, m)
  {
    var s := Fill(xs, prefix, c0);
    FillFromAssigned(xs, prefix, UsedIds(xs), c0);
    if IdFor(prefix, m) !in UsedIds(xs) {
      var k :| 0 <= k < |xs| && HasNoId(xs[k]) && s.numbers[k] == m;
      assert s.done[k][IdKey] == IdFor(prefix, m);
    }
  }

  /** A pass over elements that all have an ID changes nothing and draws nothing. */
  lemma {:induction false} FillFromNoGaps(s: FillState, xs: seq<Attributes>, prefix: string)
    requires forall k :: 0 <= k < |xs| ==> !HasNoId(xs[k])
    ensures FillFrom(s, xs, prefix).done == s.done + xs
    ensures FillFrom(s, xs, prefix).counter == s.counter
    decreases |xs|
  {
    if xs != [] {
      var ys := xs[..|xs| - 1];
      FillFromNoGaps(s, ys, prefix);
      assert s.done + ys + [xs[|xs| - 1]] == s.done + xs;
    }
  }

  /** Running the pass again on its own result changes nothing. */
  lemma FillIdempotent(xs: seq<Attributes>, prefix: string, c0: nat, c1: nat)
    ensures Fill(Fill(xs, prefix, c0).done, prefix, c1).done == Fill(xs, prefix, c0).done
  {
    var d := Fill(xs, prefix, c0).done;
    FillComplete(xs, prefix, c0);
    FillFromNoGaps(Start(UsedIds(d), c1), d, prefix);
  }

  // ---------------------------------------------------------------------------
  // The imperative pass

  /** The do-while loop of the pass: draws until the draw is not in usedIds. */
  method DrawUnused(gen: IdGenerator, usedIds: set<string>) returns (newId: string)
    modifies gen
    ensures gen.counter > old(gen.counter)
    ensures newId == IdFor(gen.prefix, gen.counter - 1)
    ensures gen.counter - 1 == FirstFree(gen.prefix, usedIds, old(gen.counter))
  {
    ghost var c := gen.counter;
    newId := gen.Generate();
    while newId in usedIds
      invariant c < gen.counter
      invariant newId == IdFor(gen.prefix, gen.counter - 1)
      invariant forall m :: c <= m < gen.counter - 1 ==> IdFor(gen.prefix, m) in usedIds
      decreases Pow10(MaxLength(usedIds)) - gen.counter
    {
      UsedBelowBound(gen.prefix, usedIds, gen.counter - 1);
      newId := gen.Generate();
    }
  }

  /**
   * Collects the IDs present among the elements, then gives each element without ID,
   * in order, the first draw of the generator that is not yet in use.
   */
  method GenerateIdsForElementType(elements: array<Attributes>, gen: IdGenerator)
    modifies elements, gen
    ensures elements[..] == Fill(old(elements[..]), gen.prefix, old(gen.counter)).done
    ensures gen.counter == Fill(old(elements[..]), gen.prefix, old(gen.counter)).counter
  {
    ghost var xs := elements[..];
    ghost var c0 := gen.counter;
    ghost var prefix := gen.prefix;
    ghost var start := Start(UsedIds(xs), c0);
    var usedIds := UsedIds(elements[..]);
    for i := 0 to elements.Length
      invariant forall k :: i <= k < elements.Length ==> elements[k] == xs[k]
      invariant elements[..i] == FillFrom(start, xs[..i], gen.prefix).done
      invariant usedIds == FillFrom(start, xs[..i], gen.prefix).used
      invariant gen.counter == FillFrom(start, xs[..i], gen.prefix).counter
    {
      ghost var s := FillFrom(start, xs[..i], gen.prefix);
      assert xs[..i + 1][..i] == xs[..i];
      if HasNoId(elements[i]) {
        ghost var c := s.counter;
        var newId := DrawUnused(gen, usedIds);
        ghost var n := FirstFree(prefix, usedIds, c);
        usedIds := usedIds + {newId};
        elements[i] := elements[i][IdKey := newId];
        assert Step(s, xs[i], gen.prefix) == FillState(s.done + [elements[i]], usedIds, gen.counter, s.numbers + [n]);
      } else {
        assert Step(s, xs[i], gen.prefix).done == s.done + [elements[i]];
      }
      assert FillFrom(start, xs[..i + 1], gen.prefix) == Step(s, xs[i], gen.prefix);
      assert elements[..i + 1] == elements[..i] + [elements[i]];
    }
    assert xs[..elements.Length] == xs;
    assert elements[..elements.Length] == elements[..];
  }

  // ---------------------------------------------------------------------------
  // Two documents worked through

  /**
   * Blocks with ID "B_1", without ID, without ID: the second gets TextBlock_1 and,
   * since that is then in use, the third gets TextBlock_2.
   */
  lemma ScenarioFreshBlocks()
    ensures var xs: seq<Attributes> := [map["ID" := "B_1"], map[], map[]];
      var d := Fill(xs, "TextBlock_", 1).done;
      |d| == 3 && d[1] == map["ID" := "TextBlock_1"] && d[2] == map["ID" := "TextBlock_2"]
  {
    var xs: seq<Attributes> := [map["ID" := "B_1"], map[], map[]];
    var p := "TextBlock_";
    assert IdFor(p, 1) == "TextBlock_1" && IdFor(p, 2) == "TextBlock_2";
    var s0 := Start(UsedIds(xs), 1);
    assert "B_1" in UsedIds(xs) by { assert !HasNoId(xs[0]) && xs[0][IdKey] == "B_1"; }
    forall id | id in UsedIds(xs) ensures id == "B_1" {
      var k :| 0 <= k < |xs| && !HasNoId(xs[k]) && xs[k][IdKey] == id;
      assert k == 0;
    }
    assert UsedIds(xs) == {"B_1"};
    assert FillFrom(s0, [], p) == s0;
    assert xs[..0] == [] && xs[..1][..0] == [] && xs[..2][..1] == xs[..1] && xs[..3][..2] == xs[..2];
    var s1 := FillFrom(s0, xs[..1], p);
    assert s1 == Step(s0, xs[0], p);
    assert s1.used == {"B_1"} && s1.counter == 1;
    var s2 := FillFrom(s0, xs[..2], p);
    assert s2 == Step(s1, xs[1], p);
    assert FirstFree(p, {"B_1"}, 1) == 1;
    assert s2.used == {"B_1", "TextBlock_1"} && s2.counter == 2;
    assert FillFrom(s0, xs[..3], p) == Step(s2, xs[2], p);
    assert FirstFree(p, s2.used, 2) == 2;
    assert xs[..3] == xs;
  }

  /**
   * A block with ID TextBlock_1 followed by a block without ID: the draw TextBlock_1
   * is in use, so it is skipped and the second block gets TextBlock_2.
   */
  lemma ScenarioSkipTaken()
    ensures var xs: seq<Attributes> := [map["ID" := "TextBlock_1"], map[]];
      var d := Fill(xs, "TextBlock_", 1).done;
      |d| == 2 && d[1] == map["ID" := "TextBlock_2"]
  {
    var xs: seq<Attributes> := [map["ID" := "TextBlock_1"], map[]];
    var p := "TextBlock_";
    assert IdFor(p, 1) == "TextBlock_1" && IdFor(p, 2) == "TextBlock_2";
    var s0 := Start(UsedIds(xs), 1);
    assert "TextBlock_1" in UsedIds(xs) by { assert !HasNoId(xs[0]) && xs[0][IdKey] == "TextBlock_1"; }
    forall id | id in UsedIds(xs) ensures id == "TextBlock_1" {
      var k :| 0 <= k < |xs| && !HasNoId(xs[k]) && xs[k][IdKey] == id;
      assert k == 0;
    }
    assert UsedIds(xs) == {"TextBlock_1"};
    assert FillFrom(s0, [], p) == s0;
    assert xs[..0] == [] && xs[..1][..0] == [] && xs[..2][..1] == xs[..1];
    var s1 := FillFrom(s0, xs[..1], p);
    assert s1 == Step(s0, xs[0], p);
    var n := FirstFree(p, {"TextBlock_1"}, 1);
    assert n == 2 by {
      assert n != 1;
      assert IdFor(p, 2) !in {"TextBlock_1"};
    }
    assert FillFrom(s0, xs[..2], p) == Step(s1, xs[1], p);
    assert xs[..2] == xs;
  }
}
