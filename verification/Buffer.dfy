/**
 The bounded drop-oldest FIFO of internal/scheduler/buffer.go.

 `Pushed` and `Popped` say what one critical section does to the queue. The class `Buffer`
 does the same work in place, on the backing array of the slice. The concurrent model in
 `Pipeline` uses the two functions for its own atomic steps.
 */
module BatchBuffer {
  import opened Wrappers

  function Pushed<T>(items: seq<T>, x: T, cap: nat): seq<T>
    requires 1 <= cap
  {
    (if |items| >= cap then items[1..] else items) + [x]
  }

  function Popped<T>(items: seq<T>): seq<T> {
    if items == [] then [] else items[1..]
  }

  // ---------- runs of calls ----------

  datatype Call<T> = Push(x: T) | Pop

  /** The queue and the overflow counter after a run of calls, on one caller's own terms. */
  datatype Ledger<T> = Ledger(items: seq<T>, dropped: nat, popped: seq<T>)

  function Replay<T>(calls: seq<Call<T>>, cap: nat): Ledger<T>
    requires 1 <= cap
  {
    if calls == [] then
      Ledger([], 0, [])
    else
      var before := Replay(calls[..|calls| - 1], cap);
      match calls[|calls| - 1]
      case Push(x) =>
        Ledger(Pushed(before.items, x, cap),
               before.dropped + (if |before.items| >= cap then 1 else 0),
               before.popped)
      case Pop =>
        Ledger(Popped(before.items), before.dropped,
               before.popped + if before.items == [] then [] else [before.items[0]])
  }

  /** The batches handed to Push, in call order. */
  function Offered<T>(calls: seq<Call<T>>): seq<T> {
    if calls == [] then []
    else
      var last := calls[|calls| - 1];
      Offered(calls[..|calls| - 1]) + if last.Push? then [last.x] else []
  }

  /** `sub` can be obtained from `whole` by deleting elements: order and multiplicity survive. */
  ghost predicate Subsequence<T>(sub: seq<T>, whole: seq<T>) {
    if sub == [] then true
    else if whole == [] then false
    else if sub[|sub| - 1] == whole[|whole| - 1] && Subsequence(sub[..|sub| - 1], whole[..|whole| - 1]) then true
    else Subsequence(sub, whole[..|whole| - 1])
  }

  /** The queue is the newest stretch of what was pushed, within capacity; what left it is counted
      as popped or dropped; and the popped batches kept their order. */
  ghost predicate Conserved<T>(end: Ledger<T>, all: seq<T>, cap: nat) {
    && |end.items| <= cap
    && |end.items| + |end.popped| + end.dropped == |all|
    && end.items == all[|all| - |end.items|..]
    && Subsequence(end.popped, all[..|all| - |end.items|])
  }

  lemma {:induction false} ReplayConserves<T>(calls: seq<Call<T>>, cap: nat)
    requires 1 <= cap
    ensures Conserved(Replay(calls, cap), Offered(calls), cap)
  {
    if calls == [] {
      assert Replay(calls, cap) == Ledger([], 0, []);
      assert Offered(calls) == [];
    } else {
      var init, last := calls[..|calls| - 1], calls[|calls| - 1];
      var l, all := Replay(init, cap), Offered(init);
      ReplayConserves(init, cap);
      if last.Push? {
        PushConserves(l, all, last.x, cap);
        assert Offered(calls) == all + [last.x];
      } else {
        PopConserves(l, all, cap);
        assert Offered(calls) == all;
      }
    }
  }

  lemma PushConserves<T>(l: Ledger<T>, all: seq<T>, x: T, cap: nat)
    requires 1 <= cap && Conserved(l, all, cap)
    ensures Conserved(Ledger(Pushed(l.items, x, cap), l.dropped + (if |l.items| >= cap then 1 else 0), l.popped),
                      all + [x], cap)
  {
    var cut := |all| - |l.items|;
    if |l.items| >= cap {
      SubsequenceGrows(l.popped, all[..cut], all[cut]);
      assert (all + [x])[..cut + 1] == all[..cut] + [all[cut]];
      assert l.items[1..] + [x] == (all + [x])[cut + 1..];
    } else {
      assert (all + [x])[..cut] == all[..cut];
      assert l.items + [x] == (all + [x])[cut..];
    }
  }

  lemma PopConserves<T>(l: Ledger<T>, all: seq<T>, cap: nat)
    requires Conserved(l, all, cap)
    ensures Conserved(Ledger(Popped(l.items), l.dropped,
                             l.popped + if l.items == [] then [] else [l.items[0]]),
                      all, cap)
  {
    if l.items == [] {
      assert l.popped + [] == l.popped;
    } else {
      var cut := |all| - |l.items|;
      SubsequenceSnoc(l.popped, all[..cut], all[cut]);
      assert all[..cut + 1] == all[..cut] + [all[cut]];
      assert l.items[1..] == all[cut + 1..];
    }
  }

  lemma SubsequenceSnoc<T>(sub: seq<T>, whole: seq<T>, x: T)
    requires Subsequence(sub, whole)
    ensures Subsequence(sub + [x], whole + [x])
  {
    assert (whole + [x])[..|whole|] == whole;
    assert (sub + [x])[..|sub|] == sub;
  }

  lemma SubsequenceGrows<T>(sub: seq<T>, whole: seq<T>, x: T)
    requires Subsequence(sub, whole)
    ensures Subsequence(sub, whole + [x])
  {
    assert (whole + [x])[..|whole|] == whole;
  }

  lemma {:induction false} SubsequenceCons<T>(sub: seq<T>, whole: seq<T>, x: T)
    requires Subsequence(sub, whole)
    ensures Subsequence([x] + sub, [x] + whole) && Subsequence(sub, [x] + whole)
  {
    if sub == [] {
      assert [x] + sub == [x];
    }
    if whole != [] {
      var n := |whole| - 1;
      assert ([x] + whole)[..n + 1] == [x] + whole[..n];
      if Subsequence(sub, whole[..n]) {
        SubsequenceCons(sub, whole[..n], x);
      } else {
        assert ([x] + sub)[..|sub|] == [x] + sub[..|sub| - 1];
        SubsequenceCons(sub[..|sub| - 1], whole[..n], x);
      }
    }
  }

  lemma {:induction false} SubsequenceOfItself<T>(s: seq<T>)
    ensures Subsequence(s, s)
  {
    if s != [] { SubsequenceOfItself(s[..|s| - 1]); }
  }

  lemma PushReplayed<T>(calls: seq<Call<T>>, x: T, cap: nat)
    requires 1 <= cap
    ensures Replay(calls + [Push(x)], cap).items == Pushed(Replay(calls, cap).items, x, cap)
    ensures Replay(calls + [Push(x)], cap).dropped
         == Replay(calls, cap).dropped + if |Replay(calls, cap).items| >= cap then 1 else 0
  {
    assert (calls + [Push(x)])[..|calls|] == calls;
  }

  lemma PopReplayed<T>(calls: seq<Call<T>>, cap: nat)
    requires 1 <= cap
    ensures Replay(calls + [Pop], cap).items == Popped(Replay(calls, cap).items)
    ensures Replay(calls + [Pop], cap).dropped == Replay(calls, cap).dropped
  {
    assert (calls + [Pop])[..|calls|] == calls;
  }

  // ---------- the code ----------

  class Buffer<T(0)> {
    const cap: nat
    const zero: T          // collector.Batch{}
    var slots: array<T>    // the backing array of b.items
    var len: nat           // len(b.items)
    var dropped: nat
    var notify: bool       // the one-slot channel holds a token
    ghost var calls: seq<Call<T>>

    /** Every slot past the length is the zero Batch: nothing stale is retained. */
    ghost predicate Valid()
      reads this, slots
    {
      && 1 <= cap == slots.Length
      && len <= cap
      && forall k :: len <= k < cap ==> slots[k] == zero
    }

    /** The array and the counter are what the run of calls since the constructor leaves. */
    ghost predicate Replays()
      reads this, slots
    {
      && Valid()
      && Contents() == Replay(calls, cap).items
      && dropped == Replay(calls, cap).dropped
    }

    ghost function Contents(): seq<T>
      reads this, slots
      requires Valid()
    {
      slots[..len]
    }

    constructor (cap: nat, zero: T)
      requires 1 <= cap
      ensures Valid() && Replays() && fresh(slots)
      ensures this.cap == cap && this.zero == zero
      ensures calls == [] && Contents() == [] && dropped == 0 && !notify
    {
      this.cap := cap;
      this.zero := zero;
      slots := new T[cap](_ => zero);
      len, dropped, notify, calls := 0, 0, false, [];
    }

    /** The built-in `copy(b.items, b.items[1:])`: the last slot keeps its value. */
    method ShiftDown()
      requires 1 <= len <= slots.Length
      modifies slots
      ensures slots[..len - 1] == old(slots[1..len])
      ensures forall k :: len - 1 <= k < slots.Length ==> slots[k] == old(slots[k])
    {
      for i := 0 to len - 1
        invariant slots[..i] == old(slots[1..i + 1])
        invariant forall k :: i <= k < slots.Length ==> slots[k] == old(slots[k])
      {
        slots[i] := slots[i + 1];
      }
    }

    /** The built-in `append(b.items, x)`, which moves to a larger array when the old one is full. */
    method Append(x: T)
      requires len <= slots.Length
      modifies this`slots, this`len, slots
      ensures len == old(len) + 1 <= slots.Length
      ensures slots[..len] == old(slots[..len]) + [x]
      ensures old(len) < old(slots.Length) ==> slots == old(slots)
      ensures old(len) < old(slots.Length) ==> forall k :: len <= k < slots.Length ==> slots[k] == old(slots[k])
      ensures slots == old(slots) || fresh(slots)
    {
      if len == slots.Length {
        var grown := new T[2 * slots.Length + 1](
          i requires 0 <= i reads this, slots => if i < slots.Length then slots[i] else x);
        slots := grown;
      }
      slots[len] := x;
      len := len + 1;
    }

    method Push(x: T) returns (overflow: bool)
      requires Valid()
      modifies this, slots
      ensures Valid()
      ensures slots == old(slots)
      ensures Contents() == Pushed(old(Contents()), x, cap)
      ensures overflow <==> old(len) == cap
      ensures dropped == old(dropped) + (if overflow then 1 else 0)
      ensures calls == old(calls) + [Call.Push(x)] && (old(Replays()) ==> Replays())
      ensures notify
    {
      PushReplayed(calls, x, cap);
      calls := calls + [Call.Push(x)];
      overflow := false;
      if len >= cap {
        ShiftDown();
        len := len - 1;
        dropped := dropped + 1;
        overflow := true;
      }
      Append(x);
      if !notify {
        notify := true;
      }
    }

    method Peek() returns (head: Option<T>)
      requires Valid()
      ensures head == if Contents() == [] then None else Some(Contents()[0])
    {
      if len == 0 {
        return None;
      }
      return Some(slots[0]);
    }

    method Pop() returns (first: Option<T>)
      requires Valid()
      modifies this`len, this`calls, slots
      ensures Valid()
      ensures slots == old(slots)
      ensures Contents() == Popped(old(Contents()))
      ensures calls == old(calls) + [Call.Pop] && (old(Replays()) ==> Replays())
      ensures first == if old(Contents()) == [] then None else Some(old(Contents())[0])
    {
      PopReplayed(calls, cap);
      calls := calls + [Call.Pop];
      if len == 0 {
        return None;
      }
      first := Some(slots[0]);
      RemoveFirst();
    }

    method RemoveFirst()
      requires Valid() && len > 0
      modifies this`len, slots
      ensures Valid()
      ensures slots == old(slots)
      ensures Contents() == old(Contents())[1..]
    {
      ShiftDown();
      slots[len - 1] := zero;
      len := len - 1;
    }
  }
}
