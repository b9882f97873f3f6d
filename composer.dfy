/** Result composition: the loop of `buildInsult` that sorts the three
    resolved payloads by the key they carry and fills in the insult. */
module Composer {
  import opened Async
  import opened Payloads

  /** The strings the loop appends to the `adjectives` array, in the order
      the payloads are met. */
  function Adjectives(rs: seq<Payload>): (adjs: seq<string>)
    ensures |adjs| <= |rs|
  {
    if rs == [] then []
    else
      var last := rs[|rs| - 1];
      Adjectives(rs[..|rs| - 1]) + (if last.adj.Some? then [last.adj.value] else [])
  }

  /** The value of the insult's `noun` key after the loop: every payload
      without `adj` overwrites it with its own `noun` (None when that payload
      has no `noun`, which Java stores as null). */
  function NounOf(rs: seq<Payload>): Option<string>
  {
    if rs == [] then None
    else if rs[|rs| - 1].adj.None? then rs[|rs| - 1].noun
    else NounOf(rs[..|rs| - 1])
  }

  /** What `buildInsult` yields for the given results: the insult, or the
      IndexOutOfBoundsException thrown by `adjectives.getString(0)` or
      `adjectives.getString(1)` when the array is too short. */
  function Compose(rs: seq<Payload>): AsyncResult<Insult>
  {
    var adjs := Adjectives(rs);
    if |adjs| == 0 then Failed(IndexOutOfBounds(0))
    else if |adjs| == 1 then Failed(IndexOutOfBounds(1))
    else Succeeded(Insult(NounOf(rs), adjs[0], adjs[1]))
  }

  /** The number of payloads that carry an `adj` key, counted from the front. */
  function AdjectivePayloads(rs: seq<Payload>): nat
  {
    if rs == [] then 0
    else (if rs[0].adj.Some? then 1 else 0) + AdjectivePayloads(rs[1..])
  }

  predicate AllAdjectives(rs: seq<Payload>) {
    forall i :: 0 <= i < |rs| ==> rs[i].adj.Some?
  }

  /** The loop of `buildInsult` over the results in the order the composite
      lists them. */
  method BuildInsult(results: seq<Payload>) returns (r: AsyncResult<Insult>)
    ensures r == Compose(results)
  {
    var noun: Option<string> := None;
    var adjectives: seq<string> := [];
    for i := 0 to |results|
      invariant adjectives == Adjectives(results[..i])
      invariant noun == NounOf(results[..i])
    {
      var item := results[i];
      assert results[..i + 1][..i] == results[..i];
      if item.adj.Some? {
        adjectives := adjectives + [item.adj.value];
      } else {
        noun := item.noun;
      }
    }
    assert results[..|results|] == results;
    if |adjectives| == 0 {
      r := Failed(IndexOutOfBounds(0));
    } else if |adjectives| == 1 {
      r := Failed(IndexOutOfBounds(1));
    } else {
      r := Succeeded(Insult(noun, adjectives[0], adjectives[1]));
    }
  }

  lemma {:induction false} AdjectivesAppend(xs: seq<Payload>, ys: seq<Payload>)
    ensures Adjectives(xs + ys) == Adjectives(xs) + Adjectives(ys)
  {
    if ys == [] {
      assert xs + ys == xs;
    } else {
      var init := ys[..|ys| - 1];
      assert (xs + ys)[..|xs + ys| - 1] == xs + init;
      AdjectivesAppend(xs, init);
    }
  }

  lemma {:induction false} NounOfAppendAdjectives(xs: seq<Payload>, ys: seq<Payload>)
    requires AllAdjectives(ys)
    ensures NounOf(xs + ys) == NounOf(xs)
  {
    if ys == [] {
      assert xs + ys == xs;
    } else {
      var init := ys[..|ys| - 1];
      assert (xs + ys)[..|xs + ys| - 1] == xs + init;
      NounOfAppendAdjectives(xs, init);
    }
  }

  /** The adjective array holds one entry per `adj` payload. */
  lemma {:induction false} AdjectivesCount(rs: seq<Payload>)
    ensures |Adjectives(rs)| == AdjectivePayloads(rs)
  {
    if rs != [] {
      AdjectivesAppend([rs[0]], rs[1..]);
      assert [rs[0]] + rs[1..] == rs;
      assert [rs[0]][..0] == [];
      AdjectivesCount(rs[1..]);
    }
  }

  /** Every `adj` payload lands in the adjective array right after the
      adjectives of the payloads before it: adjectives keep their order. */
  lemma AdjectivePosition(rs: seq<Payload>, i: nat)
    requires i < |rs| && rs[i].adj.Some?
    ensures |Adjectives(rs[..i])| < |Adjectives(rs)|
    ensures Adjectives(rs)[|Adjectives(rs[..i])|] == rs[i].adj.value
  {
    assert rs == rs[..i] + ([rs[i]] + rs[i + 1..]);
    AdjectivesAppend(rs[..i], [rs[i]] + rs[i + 1..]);
    AdjectivesAppend([rs[i]], rs[i + 1..]);
    assert [rs[i]][..0] == [];
  }

  /** Conversely, every entry of the adjective array comes from an `adj`
      payload that has exactly as many `adj` payloads before it as the
      entry's index. */
  lemma {:induction false} AdjectiveSource(rs: seq<Payload>, k: nat)
    requires k < |Adjectives(rs)|
    ensures exists i :: 0 <= i < |rs| && rs[i].adj == Some(Adjectives(rs)[k])
                        && |Adjectives(rs[..i])| == k
  {
    var init := rs[..|rs| - 1];
    if k < |Adjectives(init)| {
      AdjectiveSource(init, k);
      var i :| 0 <= i < |init| && init[i].adj == Some(Adjectives(init)[k])
               && |Adjectives(init[..i])| == k;
      assert init[..i] == rs[..i];
    } else {
      assert rs[..|rs| - 1] == init;
    }
  }

  /** The noun comes from the last payload without an `adj` key. */
  lemma {:induction false} NounFromLastNonAdjective(rs: seq<Payload>, i: nat)
    requires i < |rs| && rs[i].adj.None?
    requires forall k :: i < k < |rs| ==> rs[k].adj.Some?
    ensures NounOf(rs) == rs[i].noun
  {
    assert rs == rs[..i + 1] + rs[i + 1..];
    NounOfAppendAdjectives(rs[..i + 1], rs[i + 1..]);
    assert rs[..i + 1][..i] == rs[..i];
  }

  /** With no payload lacking `adj`, the insult gets no noun. */
  lemma {:induction false} NounAbsentWithoutNounPayload(rs: seq<Payload>)
    requires AllAdjectives(rs)
    ensures NounOf(rs) == None
  {
    NounOfAppendAdjectives([], rs);
    assert [] + rs == rs;
  }

  /** A payload with an `adj` key counts as an adjective even if it also
      carries `noun`: changing its `noun` changes nothing in the result. */
  lemma {:induction false} AdjectiveKeyWins(rs: seq<Payload>, i: nat, noun: Option<string>)
    requires i < |rs| && rs[i].adj.Some?
    ensures Adjectives(rs[i := rs[i].(noun := noun)]) == Adjectives(rs)
    ensures NounOf(rs[i := rs[i].(noun := noun)]) == NounOf(rs)
    ensures Compose(rs[i := rs[i].(noun := noun)]) == Compose(rs)
  {
    var rs' := rs[i := rs[i].(noun := noun)];
    var init, init' := rs[..|rs| - 1], rs'[..|rs'| - 1];
    if i < |rs| - 1 {
      assert init' == init[i := init[i].(noun := noun)];
      AdjectiveKeyWins(init, i, noun);
    } else {
      assert init' == init;
    }
  }

  /** Composition succeeds exactly when at least two payloads carry `adj`;
      otherwise it fails at the first missing array index. */
  lemma ComposeSucceedsIff(rs: seq<Payload>)
    ensures Compose(rs).Succeeded? <==> AdjectivePayloads(rs) >= 2
    ensures Compose(rs).Failed? ==> Compose(rs).cause == IndexOutOfBounds(AdjectivePayloads(rs))
  {
    AdjectivesCount(rs);
  }

  /** Inserting one noun payload anywhere among adjective payloads leaves the
      adjective array as it was and makes that payload's noun the result's. */
  lemma NounPlacement(pre: seq<Payload>, n: Payload, post: seq<Payload>)
    requires AllAdjectives(pre) && AllAdjectives(post) && n.adj.None?
    ensures Adjectives(pre + [n] + post) == Adjectives(pre + post)
    ensures NounOf(pre + [n] + post) == n.noun
  {
    AdjectivesAppend(pre + [n], post);
    AdjectivesAppend(pre, [n]);
    AdjectivesAppend(pre, post);
    assert [n][..0] == [];
    NounOfAppendAdjectives(pre + [n], post);
  }

  /** The three results with the noun payload at position `pos` and the
      adjective payloads `a` then `b` in the remaining positions. */
  function Arrange(n: Payload, a: Payload, b: Payload, pos: nat): (rs: seq<Payload>)
    requires pos <= 2
    ensures |rs| == 3 && rs[pos] == n
  {
    [a, b][..pos] + [n] + [a, b][pos..]
  }

  /** One noun payload and two adjective payloads compose into that noun and
      the two adjectives in the order met, wherever the noun sits. */
  lemma ComposeThree(n: Payload, a: Payload, b: Payload, pos: nat)
    requires pos <= 2
    requires n.adj.None? && a.adj.Some? && b.adj.Some?
    ensures Compose(Arrange(n, a, b, pos)) == Succeeded(Insult(n.noun, a.adj.value, b.adj.value))
  {
    var pre, post := [a, b][..pos], [a, b][pos..];
    NounPlacement(pre, n, post);
    assert pre + post == [a, b];
    AdjectivesAppend([a], [b]);
    assert [a, b] == [a] + [b];
    assert [a][..0] == [] && [b][..0] == [];
  }

  /** The noun payload's position does not change the result. */
  lemma NounPositionIrrelevant(n: Payload, a: Payload, b: Payload, p: nat, q: nat)
    requires p <= 2 && q <= 2
    requires n.adj.None? && a.adj.Some? && b.adj.Some?
    ensures Compose(Arrange(n, a, b, p)) == Compose(Arrange(n, a, b, q))
  {
    ComposeThree(n, a, b, p);
    ComposeThree(n, a, b, q);
  }

  /** Swapping the two adjective payloads swaps `adj1` and `adj2` and
      changes nothing else. */
  lemma SwapAdjectives(n: Payload, a: Payload, b: Payload, pos: nat)
    requires pos <= 2
    requires n.adj.None? && a.adj.Some? && b.adj.Some?
    ensures Compose(Arrange(n, a, b, pos)).Succeeded?
    ensures Compose(Arrange(n, b, a, pos)).Succeeded?
    ensures var r, s := Compose(Arrange(n, a, b, pos)).value, Compose(Arrange(n, b, a, pos)).value;
            s == r.(adj1 := r.adj2, adj2 := r.adj1)
  {
    ComposeThree(n, a, b, pos);
    ComposeThree(n, b, a, pos);
  }

  /** Three results that are a reordering of `n`, `a` and `b` are `n` at
      some position with `a` and `b`, in one order or the other, around it. */
  lemma ReorderingIsArrangement(rs: seq<Payload>, n: Payload, a: Payload, b: Payload)
      returns (pos: nat, x: Payload, y: Payload)
    requires multiset(rs) == multiset{n, a, b}
    ensures pos <= 2 && rs == Arrange(n, x, y, pos)
    ensures (x == a && y == b) || (x == b && y == a)
  {
    assert n in multiset(rs);
    var j :| 0 <= j < |rs| && rs[j] == n;
    var rest := rs[..j] + rs[j + 1..];
    assert rs == rs[..j] + [n] + rs[j + 1..];
    assert multiset(rest) == multiset{a, b};
    assert |rest| == 2 by {
      assert |multiset(rest)| == 2;
    }
    x, y := rest[0], rest[1];
    assert rest == [x, y];
    assert x in multiset{a, b} && y in multiset{a, b};
    pos := j;
    assert rs[..j] == [x, y][..j] && rs[j + 1..] == [x, y][j..];
  }

  /** Whatever order the three results arrive in, one noun payload and two
      adjective payloads compose into that noun and both adjectives. */
  lemma ReorderedResultsCompose(rs: seq<Payload>, n: Payload, a: Payload, b: Payload)
    requires multiset(rs) == multiset{n, a, b}
    requires n.adj.None? && a.adj.Some? && b.adj.Some?
    ensures Compose(rs).Succeeded?
    ensures Compose(rs).value.noun == n.noun
    ensures multiset{Compose(rs).value.adj1, Compose(rs).value.adj2} == multiset{a.adj.value, b.adj.value}
  {
    var pos, x, y := ReorderingIsArrangement(rs, n, a, b);
    ComposeThree(n, x, y, pos);
  }

  /** When every call falls back to its breaker's `[failure]` payload, the
      insult is `[failure]` throughout, in any order. */
  lemma AllFailuresCompose(pos: nat)
    requires pos <= 2
    ensures Compose(Arrange(NounFailure, AdjFailure, AdjFailure, pos))
            == Succeeded(Insult(Some("[failure]"), "[failure]", "[failure]"))
  {
    ComposeThree(NounFailure, AdjFailure, AdjFailure, pos);
  }
}
