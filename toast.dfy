/** The toast queue (`useToast`): notifications are appended with an id
    `toast-N` drawn from a counter shared by every queue, removed by id, or
    cleared; `success`, `error`, `warning` and `info` fix the type, and
    `error` keeps its toast until it is dismissed unless a duration is
    given. */
module Toast {
  import opened Util

  datatype ToastType = Success | Error | Warning | Info

  /** A queued notification. `onRetry` identifies the retry callback, if
      any; a duration of 0 means the toast stays until it is dismissed. */
  datatype ToastItem = ToastItem(id: string, message: string, kind: ToastType, duration: Option<int>,
                                 onRetry: Option<nat>)

  /** The type of a toast added without one. */
  function KindOrDefault(kind: Option<ToastType>): (r: ToastType)
    ensures kind == None ==> r == Info
    ensures kind.Some? ==> r == kind.value
  {
    if kind.Some? then kind.value else Info
  }

  /** `toast-${n}` */
  function ToastId(n: nat): (r: string)
    ensures |r| >= 7 && r[..6] == "toast-"
    ensures forall i | 6 <= i < |r| :: IsDigit(r[i])
  {
    "toast-" + DecimalString(n)
  }

  /** The counter value an id was made from. */
  function IdNumber(id: string): nat {
    if |id| >= 6 then ParseDecimal(id[6..]) else 0
  }

  /** An id gives back the counter value it was made from, so ids made from
      different values differ. */
  lemma IdNumberOfToastId(n: nat)
    ensures IdNumber(ToastId(n)) == n
  {
    assert ToastId(n)[6..] == DecimalString(n);
    DecimalRoundTrip(n);
  }

  lemma ToastIdsDistinct(m: nat, n: nat)
    ensures ToastId(m) == ToastId(n) <==> m == n
  {
    IdNumberOfToastId(m);
    IdNumberOfToastId(n);
  }

  /** No two toasts share an id: the first toast's id is not used by the
      rest, and so on down the list. */
  ghost predicate IdsUnique(ts: seq<ToastItem>) {
    ts == [] || ((forall t | t in ts[1..] :: t.id != ts[0].id) && IdsUnique(ts[1..]))
  }

  /** `prev.filter(t => t.id !== id)` */
  function WithoutId(ts: seq<ToastItem>, id: string): seq<ToastItem> {
    if ts == [] then []
    else if ts[0].id != id then [ts[0]] + WithoutId(ts[1..], id)
    else WithoutId(ts[1..], id)
  }

  /** Removal keeps exactly the toasts with another id. */
  lemma {:induction false} WithoutIdMembers(ts: seq<ToastItem>, id: string)
    ensures forall t :: t in WithoutId(ts, id) <==> t in ts && t.id != id
    ensures |WithoutId(ts, id)| <= |ts|
  {
    if ts != [] {
      WithoutIdMembers(ts[1..], id);
      assert ts == [ts[0]] + ts[1..];
    }
  }

  /** Removal keeps the order of the rest: filtering a list is filtering
      its parts. */
  lemma {:induction false} WithoutIdAppend(a: seq<ToastItem>, b: seq<ToastItem>, id: string)
    ensures WithoutId(a + b, id) == WithoutId(a, id) + WithoutId(b, id)
  {
    if a == [] {
      assert a + b == b;
    } else {
      assert (a + b)[0] == a[0] && (a + b)[1..] == a[1..] + b;
      WithoutIdAppend(a[1..], b, id);
    }
  }

  /** Removing an id no toast has changes nothing. */
  lemma {:induction false} WithoutAbsentId(ts: seq<ToastItem>, id: string)
    requires forall t | t in ts :: t.id != id
    ensures WithoutId(ts, id) == ts
  {
    if ts != [] {
      assert ts == [ts[0]] + ts[1..];
      WithoutAbsentId(ts[1..], id);
    }
  }

  /** With unique ids, removing the id of the toast at index `k` removes
      that toast alone. */
  lemma {:induction false} RemoveOne(ts: seq<ToastItem>, k: nat)
    requires IdsUnique(ts) && k < |ts|
    ensures WithoutId(ts, ts[k].id) == ts[..k] + ts[k + 1..]
  {
    var id := ts[k].id;
    if k == 0 {
      WithoutAbsentId(ts[1..], id);
    } else {
      assert ts[k] == ts[1..][k - 1] && ts[k] in ts[1..];
      RemoveOne(ts[1..], k - 1);
      assert ts[..k] == [ts[0]] + ts[1..][..k - 1];
      assert ts[k + 1..] == ts[1..][k..];
    }
  }

  /** A toast whose id the list does not use can join it. */
  lemma {:induction false} UniqueSnoc(ts: seq<ToastItem>, x: ToastItem)
    requires IdsUnique(ts) && forall t | t in ts :: t.id != x.id
    ensures IdsUnique(ts + [x])
  {
    if ts != [] {
      assert (ts + [x])[1..] == ts[1..] + [x];
      UniqueSnoc(ts[1..], x);
    }
  }

  /** The module-level `toastIdCounter`, shared by every queue. */
  class IdCounter {
    var last: nat

    constructor ()
      ensures last == 0
    {
      last := 0;
    }
  }

  /** One `useToast` instance: its list of toasts. */
  class Toasts {
    const counter: IdCounter
    var toasts: seq<ToastItem>

    /** Ids are unique and made from counter values already drawn. */
    ghost predicate Valid()
      reads this, counter
    {
      IdsUnique(toasts) && forall i | 0 <= i < |toasts| :: IdNumber(toasts[i].id) <= counter.last
    }

    constructor (counter: IdCounter)
      ensures Valid() && this.counter == counter && toasts == []
    {
      this.counter := counter;
      toasts := [];
    }

    /** `addToast`: draws the next counter value, appends the toast at the
        end and returns its id, which no toast in the list has. */
    method AddToast(message: string, kind: Option<ToastType>, duration: Option<int>, onRetry: Option<nat>)
      returns (id: string)
      requires Valid()
      modifies this, counter
      ensures Valid()
      ensures counter.last == old(counter.last) + 1 && id == ToastId(counter.last)
      ensures toasts == old(toasts) + [ToastItem(id, message, KindOrDefault(kind), duration, onRetry)]
      ensures forall t | t in old(toasts) :: t.id != id
    {
      counter.last := counter.last + 1;
      id := ToastId(counter.last);
      IdNumberOfToastId(counter.last);
      forall t | t in toasts ensures t.id != id {
        var i :| 0 <= i < |toasts| && toasts[i] == t;
        assert IdNumber(t.id) <= counter.last - 1;
      }
      var item := ToastItem(id, message, KindOrDefault(kind), duration, onRetry);
      UniqueSnoc(toasts, item);
      toasts := toasts + [item];
    }

    /** `removeToast`: drops the toasts with that id, keeping the others in
        order. */
    method RemoveToast(id: string)
      requires Valid()
      modifies this`toasts
      ensures Valid()
      ensures toasts == WithoutId(old(toasts), id)
      ensures forall k | 0 <= k < |old(toasts)| && old(toasts)[k].id == id :: toasts == old(toasts)[..k] + old(toasts)[k + 1..]
      ensures (forall t | t in old(toasts) :: t.id != id) ==> toasts == old(toasts)
    {
      forall k | 0 <= k < |toasts| && toasts[k].id == id {
        RemoveOne(toasts, k);
      }
      if forall t | t in toasts :: t.id != id {
        WithoutAbsentId(toasts, id);
      }
      WithoutIdSubsequence(toasts, id);
      WithoutIdMembers(toasts, id);
      var kept := WithoutId(toasts, id);
      forall i | 0 <= i < |kept| ensures IdNumber(kept[i].id) <= counter.last {
        assert kept[i] in toasts;
      }
      toasts := kept;
    }

    /** `clearAllToasts` */
    method ClearAll()
      modifies this`toasts
      ensures Valid() && toasts == []
    {
      toasts := [];
    }

    method ShowSuccess(message: string, duration: Option<int>) returns (id: string)
      requires Valid()
      modifies this, counter
      ensures Valid() && id == ToastId(counter.last) && counter.last == old(counter.last) + 1
      ensures toasts == old(toasts) + [ToastItem(id, message, Success, duration, None)]
    {
      id := AddToast(message, Some(Success), duration, None);
    }

    /** `error`: without a duration the toast stays until dismissed. */
    method ShowError(message: string, onRetry: Option<nat>, duration: Option<int>) returns (id: string)
      requires Valid()
      modifies this, counter
      ensures Valid() && id == ToastId(counter.last) && counter.last == old(counter.last) + 1
      ensures toasts == old(toasts) + [ToastItem(id, message, Error, Some(if duration.Some? then duration.value else 0), onRetry)]
    {
      id := AddToast(message, Some(Error), Some(if duration.Some? then duration.value else 0), onRetry);
    }

    method ShowWarning(message: string, duration: Option<int>) returns (id: string)
      requires Valid()
      modifies this, counter
      ensures Valid() && id == ToastId(counter.last) && counter.last == old(counter.last) + 1
      ensures toasts == old(toasts) + [ToastItem(id, message, Warning, duration, None)]
    {
      id := AddToast(message, Some(Warning), duration, None);
    }

    method ShowInfo(message: string, duration: Option<int>) returns (id: string)
      requires Valid()
      modifies this, counter
      ensures Valid() && id == ToastId(counter.last) && counter.last == old(counter.last) + 1
      ensures toasts == old(toasts) + [ToastItem(id, message, Info, duration, None)]
    {
      id := AddToast(message, Some(Info), duration, None);
    }
  }

  /** Filtering keeps unique ids unique. */
  lemma {:induction false} WithoutIdSubsequence(ts: seq<ToastItem>, id: string)
    requires IdsUnique(ts)
    ensures IdsUnique(WithoutId(ts, id))
  {
    if ts != [] {
      WithoutIdSubsequence(ts[1..], id);
      WithoutIdMembers(ts[1..], id);
      if ts[0].id != id {
        assert ([ts[0]] + WithoutId(ts[1..], id))[1..] == WithoutId(ts[1..], id);
      }
    }
  }
}
