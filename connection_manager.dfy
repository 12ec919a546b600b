/**
 * The server's registry of open WebSocket connections: a list used as a set, grown by
 * `connect`, shrunk by `disconnect`, and walked by `broadcast`, which drops peers whose
 * send reports a disconnect while it iterates the same list.
 */
module ConnectionManager {

  import opened Sequences

  /** How one `send_text` ends. */
  datatype SendOutcome =
    | Sent           // delivered
    | Disconnected   // raised the disconnect error, which `broadcast` catches
    | OtherError     // raised anything else, which leaves `broadcast`

  /**
   * `s` without its first occurrence of `x` (Python's `list.remove`, guarded by `in`):
   * unchanged when `x` is absent, and otherwise the other elements in their old order.
   */
  function RemoveFirst<W(==)>(s: seq<W>, x: W): (r: seq<W>)
    ensures x !in s ==> r == s
    ensures x in s ==> |r| == |s| - 1
  {
    if s == [] then []
    else if s[0] == x then s[1..]
    else [s[0]] + RemoveFirst(s[1..], x)
  }

  /** `RemoveFirst` cuts out exactly the first occurrence. */
  lemma {:induction false} RemoveFirstAt<W>(s: seq<W>, x: W, i: nat)
    requires i < |s| && s[i] == x && x !in s[..i]
    ensures RemoveFirst(s, x) == s[..i] + s[i + 1..]
  {
    if i > 0 {
      assert s[0] in s[..i];
      assert s[1..][..i - 1] == s[1..i];
      RemoveFirstAt(s[1..], x, i - 1);
      assert s[..i] == [s[0]] + s[1..i];
      assert s[1..][i..] == s[i + 1..];
    }
  }

  /** Removing an element of a duplicate-free list removes every copy and keeps every other member. */
  lemma {:induction false} RemoveFirstFromSet<W>(s: seq<W>, x: W)
    requires NoDup(s)
    ensures NoDup(RemoveFirst(s, x))
    ensures x !in RemoveFirst(s, x)
    ensures forall k :: 0 <= k < |s| && s[k] != x ==> s[k] in RemoveFirst(s, x)
    ensures forall k :: 0 <= k < |RemoveFirst(s, x)| ==> RemoveFirst(s, x)[k] in s
  {
    if s != [] {
      NoDupTail(s);
      forall k | 1 <= k < |s| ensures s[k] == s[1..][k - 1] { }
      if s[0] != x {
        var r := RemoveFirst(s[1..], x);
        RemoveFirstFromSet(s[1..], x);
        assert s[0] !in r;
        NoDupCons(s[0], r);
        assert RemoveFirst(s, x) == [s[0]] + r;
      }
    }
  }

  /** Removing the first element of the unvisited suffix, when the visited prefix does not hold it. */
  lemma RemoveAfterPrefix<W>(kept: seq<W>, rest: seq<W>)
    requires rest != [] && rest[0] !in kept
    ensures RemoveFirst(kept + rest, rest[0]) == kept + rest[1..]
  {
    if kept != [] {
      assert (kept + rest)[0] == kept[0];
      assert (kept + rest)[1..] == kept[1..] + rest;
      RemoveAfterPrefix(kept[1..], rest);
      assert kept == [kept[0]] + kept[1..];
    }
  }

  // ---------------------------------------------------------------------------
  // Reference definition of one broadcast pass
  // ---------------------------------------------------------------------------

  datatype PassResult<W> = PassResult(remaining: seq<W>, attempted: seq<W>, raised: bool)

  /**
   * One `for` pass over `s`, the part of the list from the loop's current index on.  A
   * removed connection shifts its successor into the slot the loop has already passed,
   * so that successor is neither sent to nor removed in this pass.
   */
  function Pass<W>(s: seq<W>, outcome: W -> SendOutcome): PassResult<W>
    decreases |s|
  {
    if s == [] then PassResult([], [], false)
    else
      match outcome(s[0])
      case Sent =>
        var r := Pass(s[1..], outcome);
        PassResult([s[0]] + r.remaining, [s[0]] + r.attempted, r.raised)
      case Disconnected =>
        if |s| == 1 then PassResult([], [s[0]], false)
        else
          var r := Pass(s[2..], outcome);
          PassResult([s[1]] + r.remaining, [s[0]] + r.attempted, r.raised)
      case OtherError => PassResult(s, [s[0]], true)
  }

  /** A pass only sends to and keeps members of the list. */
  lemma {:induction false} PassStaysInList<W>(s: seq<W>, outcome: W -> SendOutcome)
    ensures forall k :: 0 <= k < |Pass(s, outcome).attempted| ==> Pass(s, outcome).attempted[k] in s
    ensures forall k :: 0 <= k < |Pass(s, outcome).remaining| ==> Pass(s, outcome).remaining[k] in s
    decreases |s|
  {
    if s != [] {
      match outcome(s[0]) {
        case Sent =>
          PassStaysInList(s[1..], outcome);
        case Disconnected =>
          if |s| > 1 {
            PassStaysInList(s[2..], outcome);
          }
        case OtherError =>
      }
    }
  }

  /** A pass raises exactly when its last send raised something other than a disconnect. */
  lemma {:induction false} PassRaisesOnlyAtEnd<W>(s: seq<W>, outcome: W -> SendOutcome)
    ensures var r := Pass(s, outcome);
            r.raised <==> |r.attempted| > 0 && outcome(r.attempted[|r.attempted| - 1]) == OtherError
    ensures var r := Pass(s, outcome);
            forall k :: 0 <= k < |r.attempted| - 1 ==> outcome(r.attempted[k]) != OtherError
    decreases |s|
  {
    if s != [] {
      match outcome(s[0]) {
        case Sent =>
          PassRaisesOnlyAtEnd(s[1..], outcome);
        case Disconnected =>
          if |s| > 1 {
            PassRaisesOnlyAtEnd(s[2..], outcome);
          }
        case OtherError =>
      }
    }
  }

  /** Over a duplicate-free list a pass sends to each connection at most once, and keeps the list a set. */
  lemma {:induction false} PassKeepsSets<W>(s: seq<W>, outcome: W -> SendOutcome)
    requires NoDup(s)
    ensures NoDup(Pass(s, outcome).attempted)
    ensures NoDup(Pass(s, outcome).remaining)
    decreases |s|
  {
    if s != [] {
      NoDupTail(s);
      match outcome(s[0]) {
        case Sent =>
          PassKeepsSets(s[1..], outcome);
          PassStaysInList(s[1..], outcome);
          NoDupCons(s[0], Pass(s[1..], outcome).attempted);
          NoDupCons(s[0], Pass(s[1..], outcome).remaining);
        case Disconnected =>
          if |s| > 1 {
            NoDupTail(s[1..]);
            assert s[2..] == s[1..][1..];
            PassKeepsSets(s[2..], outcome);
            PassStaysInList(s[2..], outcome);
            NoDupCons(s[0], Pass(s[2..], outcome).attempted);
            NoDupCons(s[1], Pass(s[2..], outcome).remaining);
          }
        case OtherError =>
      }
    }
  }

  /**
   * After a pass over a duplicate-free list, a connection is still registered exactly when it
   * was not sent to with a disconnect: successful sends stay, yet unvisited peers stay too.
   */
  lemma {:induction false} PassRemovesExactlyDisconnected<W>(s: seq<W>, outcome: W -> SendOutcome)
    requires NoDup(s)
    ensures forall k :: 0 <= k < |s| ==>
              (s[k] in Pass(s, outcome).remaining <==>
               !(s[k] in Pass(s, outcome).attempted && outcome(s[k]) == Disconnected))
    decreases |s|
  {
    if s != [] {
      NoDupTail(s);
      match outcome(s[0]) {
        case Sent =>
          PassRemovesExactlyDisconnected(s[1..], outcome);
          forall k | 1 <= k < |s| ensures s[k] == s[1..][k - 1] { }
        case Disconnected =>
          if |s| > 1 {
            NoDupTail(s[1..]);
            assert s[2..] == s[1..][1..];
            PassRemovesExactlyDisconnected(s[2..], outcome);
            PassStaysInList(s[2..], outcome);
            forall k | 2 <= k < |s| ensures s[k] == s[2..][k - 2] { }
          }
        case OtherError =>
      }
    }
  }

  /**
   * Over a duplicate-free list, the successor of a connection dropped for a disconnect is
   * never sent to in the same pass.
   */
  lemma {:induction false} PassSkipsSuccessor<W>(s: seq<W>, outcome: W -> SendOutcome)
    requires NoDup(s)
    ensures forall k :: 0 <= k < |s| - 1 && s[k] in Pass(s, outcome).attempted && outcome(s[k]) == Disconnected
              ==> s[k + 1] !in Pass(s, outcome).attempted
    decreases |s|
  {
    if s != [] {
      NoDupTail(s);
      match outcome(s[0]) {
        case Sent =>
          PassSkipsSuccessor(s[1..], outcome);
          PassStaysInList(s[1..], outcome);
          forall k | 1 <= k < |s| ensures s[k] == s[1..][k - 1] { }
        case Disconnected =>
          if |s| > 1 {
            NoDupTail(s[1..]);
            assert s[2..] == s[1..][1..];
            PassSkipsSuccessor(s[2..], outcome);
            PassStaysInList(s[2..], outcome);
            forall k | 2 <= k < |s| ensures s[k] == s[2..][k - 2] { }
          }
        case OtherError =>
      }
    }
  }

  /** The loop's bookkeeping: the pass over `orig` is `kept` and `attempted` followed by the pass over `rest`. */
  ghost predicate PassSplits<W>(orig: seq<W>, outcome: W -> SendOutcome, kept: seq<W>, attempted: seq<W>, rest: seq<W>) {
    Pass(orig, outcome)
    == PassResult(kept + Pass(rest, outcome).remaining,
                  attempted + Pass(rest, outcome).attempted,
                  Pass(rest, outcome).raised)
  }

  lemma SentSplit<W>(orig: seq<W>, outcome: W -> SendOutcome, kept: seq<W>, attempted: seq<W>, rest: seq<W>)
    requires PassSplits(orig, outcome, kept, attempted, rest)
    requires rest != [] && outcome(rest[0]) == Sent
    ensures PassSplits(orig, outcome, kept + [rest[0]], attempted + [rest[0]], rest[1..])
  {
    var r := Pass(rest[1..], outcome);
    assert kept + ([rest[0]] + r.remaining) == (kept + [rest[0]]) + r.remaining;
    assert attempted + ([rest[0]] + r.attempted) == (attempted + [rest[0]]) + r.attempted;
  }

  lemma DisconnectedSplit<W>(orig: seq<W>, outcome: W -> SendOutcome, kept: seq<W>, attempted: seq<W>, rest: seq<W>)
    requires PassSplits(orig, outcome, kept, attempted, rest)
    requires |rest| > 1 && outcome(rest[0]) == Disconnected
    ensures PassSplits(orig, outcome, kept + [rest[1]], attempted + [rest[0]], rest[2..])
  {
    var r := Pass(rest[2..], outcome);
    assert kept + ([rest[1]] + r.remaining) == (kept + [rest[1]]) + r.remaining;
    assert attempted + ([rest[0]] + r.attempted) == (attempted + [rest[0]]) + r.attempted;
  }

  lemma DisconnectedLastSplit<W>(orig: seq<W>, outcome: W -> SendOutcome, kept: seq<W>, attempted: seq<W>, rest: seq<W>)
    requires PassSplits(orig, outcome, kept, attempted, rest)
    requires |rest| == 1 && outcome(rest[0]) == Disconnected
    ensures PassSplits(orig, outcome, kept, attempted + [rest[0]], [])
  {
    assert kept + [] == kept;
    assert attempted + [rest[0]] + [] == attempted + [rest[0]];
  }

  lemma OtherErrorSplit<W>(orig: seq<W>, outcome: W -> SendOutcome, kept: seq<W>, attempted: seq<W>, rest: seq<W>)
    requires PassSplits(orig, outcome, kept, attempted, rest)
    requires rest != [] && outcome(rest[0]) == OtherError
    ensures Pass(orig, outcome) == PassResult(kept + rest, attempted + [rest[0]], true)
  {
  }

  /** Three peers that all hang up: the first and third are dropped, the second survives unvisited. */
  lemma ThreeDisconnectsExample(outcome: int -> SendOutcome)
    requires forall w :: outcome(w) == Disconnected
    ensures Pass([1, 2, 3], outcome) == PassResult([2], [1, 3], false)
  {
    assert [1, 2, 3][2..] == [3];
  }

  // ---------------------------------------------------------------------------
  // The registry
  // ---------------------------------------------------------------------------

  class ConnectionManager<W(==)> {
    var activeConnections: seq<W>

    /** The list holds each connection at most once. */
    ghost predicate Valid()
      reads this
    {
      NoDup(activeConnections)
    }

    constructor ()
      ensures activeConnections == [] && Valid()
    {
      activeConnections := [];
    }

    /** `connect` after the handshake: register `w` at the end unless it is already registered. */
    method Connect(w: W)
      requires Valid()
      modifies this
      ensures Valid()
      ensures activeConnections == if w in old(activeConnections) then old(activeConnections)
                                   else old(activeConnections) + [w]
    {
      if w !in activeConnections {
        NoDupSnoc(activeConnections, w);
        activeConnections := activeConnections + [w];
      }
    }

    /** `disconnect`: unregister `w` if it is registered. */
    method Disconnect(w: W)
      requires Valid()
      modifies this
      ensures Valid()
      ensures activeConnections == RemoveFirst(old(activeConnections), w)
      ensures w !in activeConnections
    {
      RemoveFirstFromSet(activeConnections, w);
      if w in activeConnections {
        activeConnections := RemoveFirst(activeConnections, w);
      }
    }

    /**
     * `broadcast`: send to the connection at the loop index, then advance the index; a
     * disconnect removes that connection from the list being iterated.  Returns the
     * connections sent to, and whether a send raised an error other than a disconnect.
     */
    method Broadcast(outcome: W -> SendOutcome) returns (attempted: seq<W>, raised: bool)
      requires Valid()
      modifies this
      ensures Valid()
      ensures Pass(old(activeConnections), outcome) == PassResult(activeConnections, attempted, raised)
    {
      ghost var orig := activeConnections;
      ghost var kept: seq<W> := [];
      ghost var j := 0;
      attempted := [];
      raised := false;
      var i := 0;
      while i < |activeConnections|
        invariant Valid()
        invariant Scanned(orig, outcome, kept, attempted, j, activeConnections)
        invariant i == |kept| || (i == |kept| + 1 && j == |orig|)
        decreases |activeConnections| - i
      {
        ScannedNext(orig, outcome, kept, attempted, j, activeConnections, i);
        var c := activeConnections[i];
        i := i + 1;
        var o := outcome(c);
        if o == OtherError {
          OtherErrorStep(orig, outcome, kept, attempted, j, activeConnections);
          attempted := attempted + [c];
          raised := true;
          return;
        } else if o == Sent {
          SentStep(orig, outcome, kept, attempted, j, activeConnections);
          kept := kept + [c];
          j := j + 1;
        } else {
          DisconnectedStep(orig, outcome, kept, attempted, j, activeConnections);
          Disconnect(c);
          if j + 1 < |orig| {
            kept := kept + [orig[j + 1]];
            j := j + 2;
          } else {
            j := j + 1;
          }
        }
        attempted := attempted + [c];
      }
      ScannedAll(orig, outcome, kept, attempted, j, activeConnections, i);
    }
  }

  /**
   * The state of `Broadcast` after reading `orig` up to index `j`: the list is the
   * kept connections followed by the unread ones, and the rest of the pass over
   * the unread ones completes the pass over `orig`.
   */
  ghost predicate Scanned<W>(orig: seq<W>, outcome: W -> SendOutcome, kept: seq<W>, attempted: seq<W>, j: int, active: seq<W>) {
    && 0 <= j <= |orig|
    && active == kept + orig[j..]
    && PassSplits(orig, outcome, kept, attempted, orig[j..])
  }

  lemma ScannedNext<W>(orig: seq<W>, outcome: W -> SendOutcome, kept: seq<W>, attempted: seq<W>, j: int, active: seq<W>, i: int)
    requires Scanned(orig, outcome, kept, attempted, j, active)
    requires i == |kept| || (i == |kept| + 1 && j == |orig|)
    requires i < |active|
    ensures i == |kept| && j < |orig| && active[i] == orig[j]
  {
    assert active[|kept|] == orig[j..][0];
  }

  lemma SentStep<W>(orig: seq<W>, outcome: W -> SendOutcome, kept: seq<W>, attempted: seq<W>, j: int, active: seq<W>)
    requires Scanned(orig, outcome, kept, attempted, j, active)
    requires j < |orig| && outcome(orig[j]) == Sent
    ensures Scanned(orig, outcome, kept + [orig[j]], attempted + [orig[j]], j + 1, active)
  {
    var rest := orig[j..];
    assert rest[0] == orig[j] && rest[1..] == orig[j + 1..];
    SentSplit(orig, outcome, kept, attempted, rest);
    assert active == (kept + [orig[j]]) + orig[j + 1..];
  }

  lemma DisconnectedStep<W>(orig: seq<W>, outcome: W -> SendOutcome, kept: seq<W>, attempted: seq<W>, j: int, active: seq<W>)
    requires Scanned(orig, outcome, kept, attempted, j, active) && NoDup(active)
    requires j < |orig| && outcome(orig[j]) == Disconnected
    ensures j + 1 < |orig| ==>
      Scanned(orig, outcome, kept + [orig[j + 1]], attempted + [orig[j]], j + 2, RemoveFirst(active, orig[j]))
    ensures j + 1 == |orig| ==>
      Scanned(orig, outcome, kept, attempted + [orig[j]], j + 1, RemoveFirst(active, orig[j]))
  {
    var rest := orig[j..];
    assert rest[0] == orig[j] && rest[1..] == orig[j + 1..];
    NotInPrefix(kept, rest);
    RemoveAfterPrefix(kept, rest);
    if j + 1 < |orig| {
      DisconnectedSplit(orig, outcome, kept, attempted, rest);
      ShiftAfterRemoval(kept, orig, j);
    } else {
      DisconnectedLastSplit(orig, outcome, kept, attempted, rest);
    }
  }

  lemma OtherErrorStep<W>(orig: seq<W>, outcome: W -> SendOutcome, kept: seq<W>, attempted: seq<W>, j: int, active: seq<W>)
    requires Scanned(orig, outcome, kept, attempted, j, active)
    requires j < |orig| && outcome(orig[j]) == OtherError
    ensures Pass(orig, outcome) == PassResult(active, attempted + [orig[j]], true)
  {
    var rest := orig[j..];
    assert rest[0] == orig[j];
    OtherErrorSplit(orig, outcome, kept, attempted, rest);
  }

  lemma ScannedAll<W>(orig: seq<W>, outcome: W -> SendOutcome, kept: seq<W>, attempted: seq<W>, j: int, active: seq<W>, i: int)
    requires Scanned(orig, outcome, kept, attempted, j, active)
    requires i == |kept| || (i == |kept| + 1 && j == |orig|)
    requires i >= |active|
    ensures Pass(orig, outcome) == PassResult(active, attempted, false)
  {
    assert orig[j..] == [];
    assert kept + [] == kept && attempted + [] == attempted;
  }

  lemma ShiftAfterRemoval<W>(kept: seq<W>, orig: seq<W>, j: nat)
    requires j + 1 < |orig|
    ensures kept + orig[j..][1..] == (kept + [orig[j..][1]]) + orig[j..][2..]
    ensures orig[j..][2..] == orig[j + 2..]
  {
    assert orig[j..][1..] == [orig[j..][1]] + orig[j..][2..];
  }

  lemma NotInPrefix<W>(kept: seq<W>, rest: seq<W>)
    requires NoDup(kept + rest) && rest != []
    ensures rest[0] !in kept
  {
    forall a | 0 <= a < |kept| ensures kept[a] != rest[0] {
      assert (kept + rest)[a] == kept[a];
      assert (kept + rest)[|kept|] == rest[0];
    }
  }

  lemma NoDupSnoc<W>(s: seq<W>, x: W)
    requires NoDup(s) && x !in s
    ensures NoDup(s + [x])
  {
  }
}
