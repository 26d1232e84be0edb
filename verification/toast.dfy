/**
 * `ToastService`: a list of notifications, each appended by `show` and
 * dismissed by a timer that `show` schedules. All timers have the same
 * delay, so they fire in the order they were scheduled; firing one is an
 * explicit step.
 */
module Toasts {
  import opened Sequences

  datatype ToastType = Success | Error | Info

  datatype Toast = Toast(message: string, kind: ToastType)

  /** `prev.filter(t => t.message !== message)`: no toast with the message is left, and none is added. */
  function Without(ts: seq<Toast>, message: string): (r: seq<Toast>)
    ensures |r| <= |ts|
    ensures forall i :: 0 <= i < |r| ==> r[i].message != message
  {
    if ts == [] then []
    else if ts[0].message == message then Without(ts[1..], message)
    else [ts[0]] + Without(ts[1..], message)
  }

  /**
   * Every toast with the message goes, duplicates included; the others
   * stay, as often as they were there and in their order.
   */
  lemma {:induction false} WithoutSpec(ts: seq<Toast>, message: string)
    ensures forall t :: t in Without(ts, message) <==> t in ts && t.message != message
    ensures forall t :: multiset(Without(ts, message))[t] == if t.message == message then 0 else multiset(ts)[t]
    ensures IsSubseq(Without(ts, message), ts)
    decreases |ts|
  {
    if ts != [] {
      var rest := Without(ts[1..], message);
      WithoutSpec(ts[1..], message);
      assert ts == [ts[0]] + ts[1..];
      if ts[0].message == message {
        assert rest == [] || rest[0] != ts[0] by {
          if rest != [] { assert rest[0] in rest; }
        }
      } else {
        assert ([ts[0]] + rest)[1..] == rest;
      }
    }
  }

  /** Removal distributes over concatenation. */
  lemma {:induction false} WithoutAppend(a: seq<Toast>, b: seq<Toast>, message: string)
    ensures Without(a + b, message) == Without(a, message) + Without(b, message)
    decreases |a|
  {
    if a != [] {
      assert (a + b)[1..] == a[1..] + b;
      WithoutAppend(a[1..], b, message);
    } else {
      assert a + b == b;
    }
  }

  /** Removing a message that is not there changes nothing. */
  lemma {:induction false} WithoutAbsent(ts: seq<Toast>, message: string)
    requires forall i :: 0 <= i < |ts| ==> ts[i].message != message
    ensures Without(ts, message) == ts
    decreases |ts|
  {
    if ts != [] {
      WithoutAbsent(ts[1..], message);
    }
  }

  /** Removing twice is removing once. */
  lemma WithoutIdempotent(ts: seq<Toast>, message: string)
    ensures Without(Without(ts, message), message) == Without(ts, message)
  {
    var r := Without(ts, message);
    WithoutAbsent(r, message);
  }

  /**
   * `show(m)` followed by its scheduled `remove(m)`: the new toast is gone,
   * and so is every earlier toast with the same text; the others remain.
   */
  lemma ShowThenRemove(ts: seq<Toast>, message: string, kind: ToastType)
    ensures Without(ts + [Toast(message, kind)], message) == Without(ts, message)
    ensures forall t :: t in Without(ts + [Toast(message, kind)], message) ==> t.message != message
  {
    WithoutAppend(ts, [Toast(message, kind)], message);
    assert Without([Toast(message, kind)], message) == [];
  }

  /** The list after the given timers have fired, in order. */
  function FireAll(ts: seq<Toast>, timers: seq<string>): seq<Toast>
    decreases |timers|
  {
    if timers == [] then ts else FireAll(Without(ts, timers[0]), timers[1..])
  }

  /** Every toast has a pending timer. */
  ghost predicate Scheduled(ts: seq<Toast>, timers: seq<string>)
  {
    forall i :: 0 <= i < |ts| ==> ts[i].message in timers
  }

  /** The first toast has a pending timer. */
  lemma FirstScheduled(ts: seq<Toast>, timers: seq<string>)
    requires ts != [] && Scheduled(ts, timers)
    ensures ts[0].message in timers
  {
  }

  /** Firing the first timer keeps every remaining toast covered by a remaining timer. */
  lemma FireKeepsScheduled(ts: seq<Toast>, timers: seq<string>)
    requires timers != [] && Scheduled(ts, timers)
    ensures Scheduled(Without(ts, timers[0]), timers[1..])
  {
    var r := Without(ts, timers[0]);
    WithoutSpec(ts, timers[0]);
    forall i | 0 <= i < |r| ensures r[i].message in timers[1..] {
      assert r[i] in r;
      var j :| 0 <= j < |ts| && ts[j] == r[i];
      assert timers == [timers[0]] + timers[1..];
    }
  }

  /** Once every pending timer has fired, no toast is left on screen. */
  lemma {:induction false} AllDismissed(ts: seq<Toast>, timers: seq<string>)
    requires Scheduled(ts, timers)
    ensures FireAll(ts, timers) == []
    decreases |timers|
  {
    if timers == [] {
      if ts != [] {
        FirstScheduled(ts, timers);
        assert false;
      }
    } else {
      FireKeepsScheduled(ts, timers);
      AllDismissed(Without(ts, timers[0]), timers[1..]);
    }
  }

  class ToastService {
    var toasts: seq<Toast>
    /** Messages whose removal timer is pending, oldest first. */
    var timers: seq<string>

    ghost predicate Valid()
      reads this
    {
      Scheduled(toasts, timers)
    }

    constructor ()
      ensures Valid() && toasts == [] && timers == []
    {
      toasts, timers := [], [];
    }

    /** `show`: appends one toast (of type success unless given) and schedules its removal. */
    method Show(message: string, kind: ToastType := Success)
      requires Valid()
      modifies this
      ensures Valid()
      ensures toasts == old(toasts) + [Toast(message, kind)]
      ensures timers == old(timers) + [message]
    {
      toasts := toasts + [Toast(message, kind)];
      timers := timers + [message];
      assert forall i :: 0 <= i < |old(timers)| ==> timers[i] == old(timers)[i];
    }

    /** `remove`: drops every toast with that message. */
    method Remove(message: string)
      requires Valid()
      modifies this
      ensures Valid()
      ensures toasts == Without(old(toasts), message) && timers == old(timers)
    {
      var r := Without(toasts, message);
      WithoutSpec(toasts, message);
      forall i | 0 <= i < |r| ensures r[i].message in timers {
        assert r[i] in r;
        var j :| 0 <= j < |toasts| && toasts[j] == r[i];
      }
      toasts := r;
    }

    /** The oldest pending timer fires and removes its message. */
    method FireTimer()
      requires Valid() && timers != []
      modifies this
      ensures Valid()
      ensures timers == old(timers)[1..]
      ensures toasts == Without(old(toasts), old(timers)[0])
    {
      FireKeepsScheduled(toasts, timers);
      toasts := Without(toasts, timers[0]);
      timers := timers[1..];
    }
  }
}
