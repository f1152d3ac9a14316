/** The toast queue (components/ui/Toast.tsx): a reducer over the list of
    visible notifications, and the auto-dismiss delay each one gets. */
module Toasts {

  import opened Wrappers
  import opened Seqs

  datatype ToastKind = Success | Error | Warning | Info

  /** A notification; its optional action button is left out. */
  datatype Toast = Toast(id: string, kind: ToastKind, title: string, message: Option<string>,
                         duration: Option<nat>)

  datatype ToastAction = AddToast(toast: Toast) | RemoveToast(id: string) | ClearAll

  const DefaultDuration := 5000
  const ErrorDuration := 7000

  function OtherToast(id: string): Toast -> bool {
    (t: Toast) => t.id != id
  }

  /** `toastReducer(state, action)` on the `toasts` list. */
  function Reduce(toasts: seq<Toast>, a: ToastAction): (r: seq<Toast>)
    ensures a.AddToast? ==> |r| == |toasts| + 1 && r[..|toasts|] == toasts && r[|toasts|] == a.toast
    ensures a.RemoveToast? ==> (forall t :: t in r <==> t in toasts && t.id != a.id) &&
                               (forall t :: multiset(r)[t] == if t.id != a.id then multiset(toasts)[t] else 0) &&
                               IsSubsequence(r, toasts)
    ensures a.ClearAll? ==> r == []
  {
    match a
    case AddToast(t) => toasts + [t]
    case RemoveToast(id) => Filter(toasts, OtherToast(id))
    case ClearAll => []
  }

  /** Removing an id no toast carries changes nothing. */
  lemma RemoveUnknown(toasts: seq<Toast>, id: string)
    requires forall t :: t in toasts ==> t.id != id
    ensures Reduce(toasts, RemoveToast(id)) == toasts
  {
    FilterKeepsAll(toasts, OtherToast(id));
  }

  /** A toast added under a fresh id and then dismissed leaves the queue as
      it was. */
  lemma AddThenRemove(toasts: seq<Toast>, t: Toast)
    requires forall u :: u in toasts ==> u.id != t.id
    ensures Reduce(Reduce(toasts, AddToast(t)), RemoveToast(t.id)) == toasts
  {
    FilterAppend(toasts, [t], OtherToast(t.id));
    FilterKeepsAll(toasts, OtherToast(t.id));
    assert Filter([t], OtherToast(t.id)) == [];
  }

  /** `toast.duration || 5000`: an absent or zero duration falls back to the default. */
  function Duration(t: Toast): (r: nat)
    ensures r > 0
    ensures t.duration.None? || t.duration == Some(0) ==> r == DefaultDuration
    ensures t.duration.Some? && t.duration.value != 0 ==> r == t.duration.value
  {
    match t.duration
    case Some(d) => if d != 0 then d else DefaultDuration
    case None => DefaultDuration
  }

  /** The toast `success`, `error`, `warning` and `info` build; only errors
      carry their own duration. */
  function Notice(id: string, kind: ToastKind, title: string, message: Option<string>): (r: Toast)
    ensures r.kind == kind && r.id == id && r.title == title && r.message == message
    ensures Duration(r) == if kind == Error then ErrorDuration else DefaultDuration
  {
    Toast(id, kind, title, message, if kind == Error then Some(ErrorDuration) else None)
  }
}
