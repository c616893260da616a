/** The toast queue and the auto-dismiss timers kept beside it. */
module Toasts {
  import opened Wrappers
  import opened Seqs

  datatype ToastVariant = Success | Error | Info

  datatype ToastEntry = ToastEntry(id: string, title: string, variant: ToastVariant, body: Option<string>)

  /** A handle returned by `setTimeout`; browsers hand out positive integers. */
  type TimerHandle = h: int | h > 0 witness 1

  /** The ids of the toasts on screen. */
  function ToastIds(toasts: seq<ToastEntry>): set<string> {
    set t | t in toasts :: t.id
  }

  /** `prev.filter((toast) => toast.id !== id)`. */
  function WithoutToast(toasts: seq<ToastEntry>, id: string): (r: seq<ToastEntry>)
    ensures id !in ToastIds(r)
    ensures ToastIds(r) == ToastIds(toasts) - {id}
  {
    Filter(toasts, (t: ToastEntry) => t.id != id)
  }

  /** Dismissing a toast just pushed with a new id gives back the queue as it was. */
  lemma {:induction false} DismissUndoesPush(toasts: seq<ToastEntry>, t: ToastEntry)
    requires t.id !in ToastIds(toasts)
    ensures WithoutToast(toasts + [t], t.id) == toasts
  {
    var keep := (e: ToastEntry) => e.id != t.id;
    FilterAppend(toasts, [t], keep);
    FilterKeepsAll(toasts, keep);
    assert Filter([t], keep) == [];
  }

  /** Dismissing keeps the remaining toasts in their order, whichever part of the queue they are in. */
  lemma DismissKeepsOrder(front: seq<ToastEntry>, back: seq<ToastEntry>, id: string)
    ensures WithoutToast(front + back, id) == WithoutToast(front, id) + WithoutToast(back, id)
  {
    FilterAppend(front, back, (t: ToastEntry) => t.id != id);
  }

  /** The provider's state: the `toasts` list, the `timeouts` map and the timers cancelled so far. */
  class ToastProvider {
    var toasts: seq<ToastEntry>
    var timeouts: map<string, TimerHandle>
    var cleared: set<TimerHandle>  // handles passed to clearTimeout

    /** Every toast on screen has its timer, and no timer outlives its toast. */
    predicate InStep()
      reads this
    {
      timeouts.Keys == ToastIds(toasts)
    }

    constructor ()
      ensures toasts == [] && timeouts == map[] && cleared == {}
      ensures InStep()
    {
      toasts, timeouts, cleared := [], map[], {};
    }

    /** `pushToast`: appends the toast under the fresh `id` and records the timer that will dismiss it. */
    method PushToast(title: string, variant: ToastVariant, body: Option<string>, id: string, timer: TimerHandle)
      modifies this`toasts, this`timeouts
      ensures toasts == old(toasts) + [ToastEntry(id, title, variant, body)]
      ensures timeouts == old(timeouts)[id := timer]
      ensures old(InStep()) ==> InStep()
    {
      toasts := toasts + [ToastEntry(id, title, variant, body)];
      timeouts := timeouts[id := timer];
    }

    /**
     * `dismissToast`, also what a timer runs when it fires: drops the toasts with
     * that id and cancels and forgets its timer, if any.
     */
    method DismissToast(id: string)
      modifies this
      ensures toasts == WithoutToast(old(toasts), id)
      ensures timeouts == old(timeouts) - {id}
      ensures cleared == if id in old(timeouts) then old(cleared) + {old(timeouts)[id]} else old(cleared)
      ensures id !in ToastIds(old(toasts)) && id !in old(timeouts) ==> toasts == old(toasts) && timeouts == old(timeouts)
      ensures old(InStep()) ==> InStep()
    {
      if id !in ToastIds(toasts) {
        FilterKeepsAll(toasts, (t: ToastEntry) => t.id != id);
      }
      toasts := WithoutToast(toasts, id);
      if id in timeouts {
        cleared := cleared + {timeouts[id]};
        timeouts := timeouts - {id};
      }
    }

    /** The unmount cleanup: every pending timer is cancelled, then the map is emptied. */
    method Unmount()
      modifies this`timeouts, this`cleared
      ensures timeouts == map[]
      ensures cleared == old(cleared) + old(timeouts).Values
    {
      var pending := timeouts.Keys;
      while pending != {}
        invariant pending <= timeouts.Keys
        invariant timeouts == old(timeouts)
        invariant cleared == old(cleared) + set k | k in timeouts.Keys - pending :: timeouts[k]
        decreases pending
      {
        var k :| k in pending;
        cleared := cleared + {timeouts[k]};
        pending := pending - {k};
      }
      assert timeouts.Keys - pending == timeouts.Keys;
      timeouts := map[];
    }
  }
}
