/** The "seen set" filter the program writes out several times: walk a list in order and keep
    an element only when its key has not been seen before. */
module DedupFilter {
  /** The elements of `xs` whose key is neither in `seen` nor the key of an earlier element. */
  function DedupFrom<T, K(==)>(xs: seq<T>, key: T -> K, seen: set<K>): seq<T>
    decreases |xs|
  {
    if xs == [] then []
    else if key(xs[0]) in seen then DedupFrom(xs[1..], key, seen)
    else [xs[0]] + DedupFrom(xs[1..], key, seen + {key(xs[0])})
  }

  /** The key that compares strings exactly, for the filters that keep each string once. */
  function Exact(p: string): string {
    p
  }

  /** Dedup starting from nothing seen: the first element of every key, in order. */
  function Dedup<T, K(==)>(xs: seq<T>, key: T -> K): seq<T> {
    DedupFrom(xs, key, {})
  }

  /** One step of the filter, for the loops that compute it. */
  lemma DedupStep<T, K>(xs: seq<T>, i: nat, key: T -> K, seen: set<K>)
    requires i < |xs|
    ensures DedupFrom(xs[i..], key, seen)
         == if key(xs[i]) in seen then DedupFrom(xs[i + 1..], key, seen)
            else [xs[i]] + DedupFrom(xs[i + 1..], key, seen + {key(xs[i])})
  {
    assert xs[i..][1..] == xs[i + 1..];
  }

  lemma AppendAssoc<T>(a: seq<T>, b: seq<T>, c: seq<T>)
    ensures (a + b) + c == a + (b + c)
  {
  }

  /** The filter loop's invariant survives one step: `acc` is what was kept so far. */
  lemma DedupLoopStep<T, K>(xs: seq<T>, i: nat, key: T -> K, seen: set<K>, acc: seq<T>)
    requires i < |xs|
    requires acc + DedupFrom(xs[i..], key, seen) == Dedup(xs, key)
    ensures key(xs[i]) in seen ==> acc + DedupFrom(xs[i + 1..], key, seen) == Dedup(xs, key)
    ensures key(xs[i]) !in seen ==>
              (acc + [xs[i]]) + DedupFrom(xs[i + 1..], key, seen + {key(xs[i])}) == Dedup(xs, key)
  {
    DedupStep(xs, i, key, seen);
    if key(xs[i]) !in seen {
      AppendAssoc(acc, [xs[i]], DedupFrom(xs[i + 1..], key, seen + {key(xs[i])}));
    }
  }

  /** The same step over a list followed by more, for a loop nested in another. */
  lemma DedupNestedStep<T, K>(xs: seq<T>, j: nat, rest: seq<T>, key: T -> K, seen: set<K>, acc: seq<T>, total: seq<T>)
    requires j < |xs|
    requires acc + DedupFrom(xs[j..] + rest, key, seen) == total
    ensures key(xs[j]) in seen ==> acc + DedupFrom(xs[j + 1..] + rest, key, seen) == total
    ensures key(xs[j]) !in seen ==>
              (acc + [xs[j]]) + DedupFrom(xs[j + 1..] + rest, key, seen + {key(xs[j])}) == total
  {
    DedupAppendStep(xs, j, rest, key, seen);
    if key(xs[j]) !in seen {
      AppendAssoc(acc, [xs[j]], DedupFrom(xs[j + 1..] + rest, key, seen + {key(xs[j])}));
    }
  }

  /** One step of the filter over a list followed by more. */
  lemma DedupAppendStep<T, K>(xs: seq<T>, j: nat, rest: seq<T>, key: T -> K, seen: set<K>)
    requires j < |xs|
    ensures DedupFrom(xs[j..] + rest, key, seen)
         == if key(xs[j]) in seen then DedupFrom(xs[j + 1..] + rest, key, seen)
            else [xs[j]] + DedupFrom(xs[j + 1..] + rest, key, seen + {key(xs[j])})
  {
    assert (xs[j..] + rest)[0] == xs[j];
    assert (xs[j..] + rest)[1..] == xs[j + 1..] + rest;
  }

  /** What is kept comes from the input, has an unseen key, and no key is kept twice. */
  lemma {:induction false} DedupKept<T, K>(xs: seq<T>, key: T -> K, seen: set<K>)
    ensures var r := DedupFrom(xs, key, seen);
      && |r| <= |xs|
      && (forall k :: 0 <= k < |r| ==> r[k] in xs && key(r[k]) !in seen)
      && (forall i, j :: 0 <= i < j < |r| ==> key(r[i]) != key(r[j]))
    decreases |xs|
  {
    if xs != [] {
      var rest := xs[1..];
      if key(xs[0]) in seen {
        DedupKept(rest, key, seen);
        var r := DedupFrom(rest, key, seen);
        forall k | 0 <= k < |r| ensures r[k] in xs {
          assert r[k] in rest;
        }
      } else {
        var seen' := seen + {key(xs[0])};
        DedupKept(rest, key, seen');
        var tail := DedupFrom(rest, key, seen');
        var r := [xs[0]] + tail;
        forall k | 0 <= k < |r| ensures r[k] in xs && key(r[k]) !in seen {
          if k > 0 {
            assert r[k] == tail[k - 1];
            assert tail[k - 1] in rest;
          }
        }
        forall i, j | 0 <= i < j < |r| ensures key(r[i]) != key(r[j]) {
          assert r[j] == tail[j - 1];
          if i > 0 {
            assert r[i] == tail[i - 1];
          }
        }
      }
    }
  }

  /** What is kept comes from the input, has an unseen key, and no key is kept twice; it is
      the first element of every unseen key, in input order, at the positions `KeptPositions`. */
  lemma DedupKeys<T, K>(xs: seq<T>, key: T -> K, seen: set<K>)
    ensures var r := DedupFrom(xs, key, seen);
      && |r| <= |xs|
      && (forall k :: 0 <= k < |r| ==> r[k] in xs && key(r[k]) !in seen)
      && (forall i, j :: 0 <= i < j < |r| ==> key(r[i]) != key(r[j]))
      && FirstOccurrences(xs, key, seen, r, KeptPositions(xs, key, seen))
  {
    DedupKept(xs, key, seen);
    KeptPositionsLocate(xs, key, seen);
  }

  /** Nothing is lost but repeats: every key of the input was seen before or is kept. */
  lemma {:induction false} DedupCovers<T, K>(xs: seq<T>, key: T -> K, seen: set<K>)
    ensures forall x :: x in xs ==> key(x) in seen || exists y :: y in DedupFrom(xs, key, seen) && key(y) == key(x)
    decreases |xs|
  {
    if xs != [] {
      var rest := xs[1..];
      var r := DedupFrom(xs, key, seen);
      var seen' := if key(xs[0]) in seen then seen else seen + {key(xs[0])};
      DedupCovers(rest, key, seen');
      var tail := DedupFrom(rest, key, seen');
      assert r == if key(xs[0]) in seen then tail else [xs[0]] + tail;
      forall x | x in xs && key(x) !in seen
        ensures exists y :: y in r && key(y) == key(x)
      {
        if key(x) == key(xs[0]) {
          assert r[0] in r;
        } else {
          assert x in rest;
          var y :| y in tail && key(y) == key(x);
          assert y in r;
        }
      }
    }
  }

  /** A list whose keys are all different and unseen comes back unchanged. */
  lemma {:induction false} DedupOfDistinct<T, K>(xs: seq<T>, key: T -> K, seen: set<K>)
    requires forall k :: 0 <= k < |xs| ==> key(xs[k]) !in seen
    requires forall i, j :: 0 <= i < j < |xs| ==> key(xs[i]) != key(xs[j])
    ensures DedupFrom(xs, key, seen) == xs
    decreases |xs|
  {
    if xs != [] {
      var rest := xs[1..];
      var seen' := seen + {key(xs[0])};
      forall k | 0 <= k < |rest| ensures key(rest[k]) !in seen' {
        assert rest[k] == xs[k + 1];
      }
      forall i, j | 0 <= i < j < |rest| ensures key(rest[i]) != key(rest[j]) {
        assert rest[i] == xs[i + 1] && rest[j] == xs[j + 1];
      }
      DedupOfDistinct(rest, key, seen');
      assert xs == [xs[0]] + rest;
    }
  }

  /** Deduplicating twice is deduplicating once. */
  lemma DedupIdempotent<T, K>(xs: seq<T>, key: T -> K)
    ensures Dedup(Dedup(xs, key), key) == Dedup(xs, key)
  {
    DedupKept(xs, key, {});
    DedupOfDistinct(Dedup(xs, key), key, {});
  }

  /** The first element is always kept, so only an empty input gives an empty result. */
  lemma DedupEmpty<T, K>(xs: seq<T>, key: T -> K)
    ensures Dedup(xs, key) == [] <==> xs == []
  {
  }
  /** Position `i` holds the first element of `xs` with its key, and that key was not seen. */
  ghost predicate FirstOf<T, K>(xs: seq<T>, key: T -> K, seen: set<K>, i: int) {
    0 <= i < |xs| && key(xs[i]) !in seen && forall j :: 0 <= j < i ==> key(xs[j]) != key(xs[i])
  }

  /** `ks` locates the kept elements `r` of `xs` given `seen`: in increasing positions, the
      element at each is the first of its key and its key was not seen, and every first
      occurrence of an unseen key has its position in `ks`. */
  ghost predicate FirstOccurrences<T, K>(xs: seq<T>, key: T -> K, seen: set<K>, r: seq<T>, ks: seq<nat>) {
    && |ks| == |r|
    && Increasing(ks)
    && LocatesFirsts(xs, key, seen, r, ks)
    && HoldsAllFirsts(xs, key, seen, ks)
  }

  predicate Increasing(ks: seq<nat>) {
    forall a, b :: 0 <= a < b < |ks| ==> ks[a] < ks[b]
  }

  /** Each position in `ks` is a first occurrence, holding the matching element of `r`. */
  ghost predicate LocatesFirsts<T, K>(xs: seq<T>, key: T -> K, seen: set<K>, r: seq<T>, ks: seq<nat>)
    requires |ks| == |r|
  {
    forall k :: 0 <= k < |ks| ==> FirstOf(xs, key, seen, ks[k]) && r[k] == xs[ks[k]]
  }

  /** Every first occurrence has its position in `ks`. */
  ghost predicate HoldsAllFirsts<T, K>(xs: seq<T>, key: T -> K, seen: set<K>, ks: seq<nat>) {
    forall i :: FirstOf(xs, key, seen, i) ==> i in ks
  }

  /** Every position one further on. */
  function Shift(ks: seq<nat>): (r: seq<nat>)
    ensures |r| == |ks| && forall k :: 0 <= k < |ks| ==> r[k] == ks[k] + 1
  {
    seq(|ks|, k requires 0 <= k < |ks| => ks[k] + 1)
  }

  /** The positions in `xs` of the elements the filter keeps. */
  function KeptPositions<T, K(==)>(xs: seq<T>, key: T -> K, seen: set<K>): seq<nat>
    decreases |xs|
  {
    if xs == [] then []
    else if key(xs[0]) in seen then Shift(KeptPositions(xs[1..], key, seen))
    else [0] + Shift(KeptPositions(xs[1..], key, seen + {key(xs[0])}))
  }

  /** Past the first element, a first occurrence in `xs` is one in the rest of `xs`, once the
      first element's key counts as seen. */
  lemma FirstOfTail<T, K>(xs: seq<T>, key: T -> K, seen: set<K>, seen': set<K>, i: int)
    requires xs != [] && seen' == seen + {key(xs[0])} && 0 <= i
    ensures FirstOf(xs, key, seen, i + 1) <==> FirstOf(xs[1..], key, seen', i)
  {
    var rest := xs[1..];
    if i + 1 < |xs| {
      assert xs[i + 1] == rest[i];
      if FirstOf(xs, key, seen, i + 1) {
        forall j | 0 <= j < i ensures key(rest[j]) != key(rest[i]) {
          assert rest[j] == xs[j + 1];
        }
      }
      if FirstOf(rest, key, seen', i) {
        forall j | 0 <= j < i + 1 ensures key(xs[j]) != key(xs[i + 1]) {
          if j > 0 {
            assert xs[j] == rest[j - 1];
          }
        }
      }
    }
  }

  /** A first element whose key was seen is skipped: the positions move one on. */
  lemma LocateSkip<T, K>(xs: seq<T>, key: T -> K, seen: set<K>, rr: seq<T>, rk: seq<nat>)
    requires xs != [] && key(xs[0]) in seen
    requires FirstOccurrences(xs[1..], key, seen, rr, rk)
    ensures FirstOccurrences(xs, key, seen, rr, Shift(rk))
  {
    assert seen + {key(xs[0])} == seen;
    ShiftIncreasing(rk);
    ShiftLocates(xs, key, seen, seen, rr, rk);
    ShiftHoldsAll(xs, key, seen, seen, rk, false);
  }

  /** A first element with a new key is kept at position 0, before the rest moved one on. */
  lemma LocateKeep<T, K>(xs: seq<T>, key: T -> K, seen: set<K>, rr: seq<T>, rk: seq<nat>)
    requires xs != [] && key(xs[0]) !in seen
    requires FirstOccurrences(xs[1..], key, seen + {key(xs[0])}, rr, rk)
    ensures FirstOccurrences(xs, key, seen, [xs[0]] + rr, [0] + Shift(rk))
  {
    var seen' := seen + {key(xs[0])};
    ShiftIncreasing(rk);
    ShiftLocates(xs, key, seen, seen', rr, rk);
    ConsIncreasing(Shift(rk));
    ConsLocates(xs, key, seen, rr, Shift(rk));
    ShiftHoldsAll(xs, key, seen, seen', rk, true);
  }

  /** Position 0 in front of positive increasing positions keeps them increasing. */
  lemma ConsIncreasing(ks: seq<nat>)
    requires Increasing(ks) && forall k :: 0 <= k < |ks| ==> ks[k] >= 1
    ensures Increasing([0] + ks)
  {
    var ks' := [0] + ks;
    forall a, b | 0 <= a < b < |ks'| ensures ks'[a] < ks'[b] {
      assert ks'[b] == ks[b - 1];
      if a > 0 {
        assert ks'[a] == ks[a - 1];
      }
    }
  }

  /** A kept first element is located at position 0. */
  lemma ConsLocates<T, K>(xs: seq<T>, key: T -> K, seen: set<K>, rr: seq<T>, ks: seq<nat>)
    requires xs != [] && key(xs[0]) !in seen && |ks| == |rr|
    requires LocatesFirsts(xs, key, seen, rr, ks)
    ensures LocatesFirsts(xs, key, seen, [xs[0]] + rr, [0] + ks)
  {
    var ks', r := [0] + ks, [xs[0]] + rr;
    assert FirstOf(xs, key, seen, 0);
    forall k | 0 <= k < |ks'| ensures FirstOf(xs, key, seen, ks'[k]) && r[k] == xs[ks'[k]] {
      if k > 0 {
        assert ks'[k] == ks[k - 1] && r[k] == rr[k - 1];
      }
    }
  }

  lemma ShiftIncreasing(rk: seq<nat>)
    requires Increasing(rk)
    ensures Increasing(Shift(rk))
  {
  }

  /** Positions of first occurrences in the rest of `xs` are, one on, positions of first
      occurrences in `xs`. */
  lemma ShiftLocates<T, K>(xs: seq<T>, key: T -> K, seen: set<K>, seen': set<K>, rr: seq<T>, rk: seq<nat>)
    requires xs != [] && seen' == seen + {key(xs[0])} && |rk| == |rr|
    requires LocatesFirsts(xs[1..], key, seen', rr, rk)
    ensures LocatesFirsts(xs, key, seen, rr, Shift(rk))
  {
    var ks := Shift(rk);
    forall k | 0 <= k < |ks| ensures FirstOf(xs, key, seen, ks[k]) && rr[k] == xs[ks[k]] {
      FirstOfTail(xs, key, seen, seen', rk[k]);
    }
  }

  /** Every first occurrence in `xs`, past position 0 or at it when `keepsHead`, is in the
      shifted positions (with 0 in front when `keepsHead`). */
  lemma ShiftHoldsAll<T, K>(xs: seq<T>, key: T -> K, seen: set<K>, seen': set<K>, rk: seq<nat>, keepsHead: bool)
    requires xs != [] && seen' == seen + {key(xs[0])} && (keepsHead || key(xs[0]) in seen)
    requires HoldsAllFirsts(xs[1..], key, seen', rk)
    ensures HoldsAllFirsts(xs, key, seen, if keepsHead then [0] + Shift(rk) else Shift(rk))
  {
    var ks := if keepsHead then [0] + Shift(rk) else Shift(rk);
    forall i | FirstOf(xs, key, seen, i) ensures i in ks {
      if i == 0 {
        assert keepsHead && ks[0] == 0;
      } else {
        FirstOfTail(xs, key, seen, seen', i - 1);
        var m :| 0 <= m < |rk| && rk[m] == i - 1;
        assert Shift(rk)[m] == i;
        if keepsHead {
          assert ks[m + 1] == i;
        }
      }
    }
  }

  lemma {:induction false} KeptPositionsLocate<T, K>(xs: seq<T>, key: T -> K, seen: set<K>)
    ensures FirstOccurrences(xs, key, seen, DedupFrom(xs, key, seen), KeptPositions(xs, key, seen))
    decreases |xs|
  {
    if xs != [] {
      if key(xs[0]) in seen {
        KeptPositionsLocate(xs[1..], key, seen);
        LocateSkip(xs, key, seen, DedupFrom(xs[1..], key, seen), KeptPositions(xs[1..], key, seen));
      } else {
        var seen' := seen + {key(xs[0])};
        KeptPositionsLocate(xs[1..], key, seen');
        LocateKeep(xs, key, seen, DedupFrom(xs[1..], key, seen'), KeptPositions(xs[1..], key, seen'));
      }
    }
  }

  /** The filter keeps exactly the first element of every key, in their order in the input. */
  lemma DedupFirstOccurrence<T, K>(xs: seq<T>, key: T -> K)
    ensures exists ks :: FirstOccurrences(xs, key, {}, Dedup(xs, key), ks)
  {
    KeptPositionsLocate(xs, key, {});
    var ks := KeptPositions(xs, key, {});
    assert FirstOccurrences(xs, key, {}, Dedup(xs, key), ks);
  }
}
