/** The toast list: showing a notification appends it, closing one removes every
    entry with its id, and a positive duration schedules a later close. */
module Notifications {
  import opened Optional
  import Seqs

  datatype Kind = Success | Warning | Error | Info

  /** `id` is the `Date.now()` reading made when the toast was shown. */
  datatype Notification = Notification(id: int, title: string, message: string, kind: Kind, duration: int)

  /** A `closeNotification(id)` scheduled `delay` milliseconds after showing. */
  datatype ScheduledClose = ScheduledClose(id: int, delay: int)

  const DefaultDuration := 5000

  function HasOtherId(id: int): Notification -> bool
  {
    (n: Notification) => n.id != id
  }

  /** `prev.filter(n => n.id !== id)`. */
  function WithoutId(list: seq<Notification>, id: int): (r: seq<Notification>)
    ensures |r| <= |list|
    ensures forall i :: 0 <= i < |r| ==> r[i].id != id
  {
    Seqs.Filter(list, HasOtherId(id))
  }

  /** Closing keeps every other toast, in order, and nothing with the closed id. */
  lemma WithoutIdSpec(list: seq<Notification>, id: int)
    ensures Seqs.SubsequenceOf(WithoutId(list, id), list)
    ensures forall n :: n in WithoutId(list, id) <==> n in list && n.id != id
  {
    Seqs.FilterIsSubsequence(list, HasOtherId(id));
    forall n
      ensures n in WithoutId(list, id) <==> n in list && n.id != id
    {
      Seqs.FilterMembership(list, HasOtherId(id), n);
    }
  }

  /** Closing an id nobody has changes nothing, and closing twice is closing once. */
  lemma CloseAbsentAndTwice(list: seq<Notification>, id: int)
    ensures (forall i :: 0 <= i < |list| ==> list[i].id != id) ==> WithoutId(list, id) == list
    ensures WithoutId(WithoutId(list, id), id) == WithoutId(list, id)
  {
    if forall i :: 0 <= i < |list| ==> list[i].id != id {
      Seqs.FilterAll(list, HasOtherId(id));
    }
    Seqs.FilterIdempotent(list, HasOtherId(id));
  }

  class Notifier {
    var notifications: seq<Notification>
    var scheduled: seq<ScheduledClose>

    constructor ()
      ensures notifications == [] && scheduled == []
    {
      notifications := [];
      scheduled := [];
    }

    /** `showNotification({ title, message, type, duration })` at time `now`; a missing
        duration is 5000. */
    method Show(title: string, message: string, kind: Kind, duration: Option<int>, now: int)
      modifies this
      ensures var d := if duration.Some? then duration.value else DefaultDuration;
              && notifications == old(notifications) + [Notification(now, title, message, kind, d)]
              && scheduled == old(scheduled) + (if d > 0 then [ScheduledClose(now, d)] else [])
    {
      var d := if duration.Some? then duration.value else DefaultDuration;
      notifications := notifications + [Notification(now, title, message, kind, d)];
      if d > 0 {
        scheduled := scheduled + [ScheduledClose(now, d)];
      }
    }

    /** `closeNotification(id)`. */
    method Close(id: int)
      modifies this
      ensures notifications == WithoutId(old(notifications), id)
      ensures scheduled == old(scheduled)
    {
      notifications := WithoutId(notifications, id);
    }
  }
}
