/**
 The notification queue behind `ToastProvider` and the view of one
 `ToastCard`.

 The provider keeps three pieces of state: an id counter (`idRef`), the
 ordered toast list, and a map from toast id to its pending timer. Here
 they are one immutable `Queue` value, and every operation returns the
 next queue together with the timer effects the caller performs.
 A pending timer is recorded by the delay it was scheduled with; the
 browser's handle is opaque. A timer firing is the event `TimerFired`.
 */
module Toast {
  import opened Js
  import AriaIds

  datatype Variant = Info | Success | Warning | Error

  /** What a caller passes to `toast(...)`; every field may be absent. */
  datatype ToastOptions = ToastOptions(
    title: Option<string>,
    description: Option<string>,
    message: Option<string>,
    variant: Option<Variant>,
    duration: Option<int>)

  datatype ToastItem = ToastItem(
    id: int,
    title: Option<string>,
    description: Option<string>,
    message: Option<string>,
    variant: Variant,
    duration: Option<int>)

  /** `counter` is `idRef.current`; `timers` maps a toast id to the delay
      (ms) its auto-dismiss timer was scheduled with. */
  datatype Queue = Queue(counter: int, toasts: seq<ToastItem>, timers: map<int, int>)

  datatype Effect =
    | ScheduleDismiss(id: int, delayMs: int)
    | CancelTimer(id: int)

  datatype Transition = Transition(queue: Queue, effects: seq<Effect>)

  const DefaultDurationMs: int := 4000

  /** The provider's state when it mounts. */
  function Init(): Queue {
    Queue(0, [], map[])
  }

  predicate HasId(toasts: seq<ToastItem>, id: int) {
    exists i :: 0 <= i < |toasts| && toasts[i].id == id
  }

  /** Ids of the list strictly increase from the front. */
  predicate Increasing(toasts: seq<ToastItem>) {
    forall i, j :: 0 <= i < j < |toasts| ==> toasts[i].id < toasts[j].id
  }

  /** What every queue reachable from `Init` satisfies. */
  predicate Valid(q: Queue) {
    && q.counter >= 0
    && (forall i :: 0 <= i < |q.toasts| ==> 1 <= q.toasts[i].id <= q.counter)
    && Increasing(q.toasts)
    && (forall k :: k in q.timers ==> HasId(q.toasts, k) && q.timers[k] != 0)
  }

  lemma InitValid()
    ensures Valid(Init())
    ensures Init().toasts == [] && Init().timers == map[]
  {
  }

  /** The delay of the auto-dismiss timer for a toast with this duration,
      or `None` when no timer is scheduled: a duration of 0 keeps the toast
      until it is closed, an absent duration means the default. */
  function TimerDelay(duration: Option<int>): (ms: Option<int>)
    ensures duration == Some(0) ==> ms.None?
    ensures duration.None? ==> ms == Some(DefaultDurationMs)
    ensures duration.Some? && duration.value != 0 ==> ms == duration
    ensures ms.Some? ==> ms.value != 0
  {
    if duration == Some(0) then None else Some(duration.GetOr(DefaultDurationMs))
  }

  /** The record `toast` builds for a fresh id. */
  function NewItem(id: int, opts: ToastOptions): ToastItem {
    ToastItem(id, opts.title, opts.description, opts.message,
              opts.variant.GetOr(Info), opts.duration)
  }

  /** `toast(opts)`: pre-increment the counter, append the item, and
      schedule a dismissal when the delay is truthy. */
  function Enqueue(q: Queue, opts: ToastOptions): (t: Transition)
    ensures t.queue.counter == q.counter + 1
    ensures |t.queue.toasts| == |q.toasts| + 1
    ensures t.queue.toasts[..|q.toasts|] == q.toasts
    ensures var item := t.queue.toasts[|q.toasts|];
      && item.id == q.counter + 1
      && item.title == opts.title
      && item.description == opts.description
      && item.message == opts.message
      && item.duration == opts.duration
      && (opts.variant.Some? ==> item.variant == opts.variant.value)
      && (opts.variant.None? ==> item.variant == Info)
    ensures TimerDelay(opts.duration).Some? ==>
      t.queue.timers == q.timers[q.counter + 1 := TimerDelay(opts.duration).value]
    ensures TimerDelay(opts.duration).None? ==> t.queue.timers == q.timers
    ensures t.effects == if TimerDelay(opts.duration).Some?
      then [ScheduleDismiss(q.counter + 1, TimerDelay(opts.duration).value)]
      else []
  {
    var id := q.counter + 1;
    var item := NewItem(id, opts);
    var toasts := q.toasts + [item];
    var ms := TimerDelay(opts.duration);
    if ms.Some? && ms.value != 0 then
      Transition(Queue(id, toasts, q.timers[id := ms.value]), [ScheduleDismiss(id, ms.value)])
    else
      Transition(Queue(id, toasts, q.timers), [])
  }

  /** `list.filter((x) => x.id !== id)` */
  function RemoveId(toasts: seq<ToastItem>, id: int): (r: seq<ToastItem>)
    ensures forall x :: x in r <==> x in toasts && x.id != id
    ensures |r| <= |toasts|
  {
    if |toasts| == 0 then []
    else if toasts[0].id == id then RemoveId(toasts[1..], id)
    else [toasts[0]] + RemoveId(toasts[1..], id)
  }

  /** `dismiss(id)`: cancel and forget the timer if there is one, and drop
      the toasts with that id. */
  function Dismiss(q: Queue, id: int): (t: Transition)
    ensures t.queue.counter == q.counter
    ensures t.queue.toasts == RemoveId(q.toasts, id)
    ensures forall x :: x in t.queue.toasts <==> x in q.toasts && x.id != id
    ensures t.queue.timers.Keys == q.timers.Keys - {id}
    ensures forall k :: k in t.queue.timers ==> t.queue.timers[k] == q.timers[k]
    ensures t.effects == if id in q.timers then [CancelTimer(id)] else []
  {
    var timers := if id in q.timers then q.timers - {id} else q.timers;
    var effects := if id in q.timers then [CancelTimer(id)] else [];
    Transition(Queue(q.counter, RemoveId(q.toasts, id), timers), effects)
  }

  // ---------------------------------------------------------------------
  // Properties of the filter

  /** Filtering distributes over concatenation; with `RemoveIdSingle`
      this pins the result down as the order-preserving filter. */
  lemma {:induction false} RemoveIdAppend(a: seq<ToastItem>, b: seq<ToastItem>, id: int)
    ensures RemoveId(a + b, id) == RemoveId(a, id) + RemoveId(b, id)
    decreases |a|
  {
    if |a| == 0 {
      assert a + b == b;
    } else {
      assert (a + b)[0] == a[0];
      assert (a + b)[1..] == a[1..] + b;
      RemoveIdAppend(a[1..], b, id);
    }
  }

  lemma RemoveIdSingle(x: ToastItem, id: int)
    ensures RemoveId([x], id) == if x.id == id then [] else [x]
  {
  }

  /** Dismissing an id no toast carries leaves the list as it is. */
  lemma {:induction false} RemoveIdAbsent(toasts: seq<ToastItem>, id: int)
    requires !HasId(toasts, id)
    ensures RemoveId(toasts, id) == toasts
    decreases |toasts|
  {
    if |toasts| > 0 {
      assert toasts[0].id != id;
      assert !HasId(toasts[1..], id) by {
        forall i | 0 <= i < |toasts[1..]|
          ensures toasts[1..][i].id != id
        {
          assert toasts[1..][i] == toasts[i + 1];
        }
      }
      RemoveIdAbsent(toasts[1..], id);
      assert toasts == [toasts[0]] + toasts[1..];
    }
  }

  lemma RemoveIdRemovesAll(toasts: seq<ToastItem>, id: int)
    ensures !HasId(RemoveId(toasts, id), id)
  {
  }

  /** Dismissing twice is dismissing once. */
  lemma RemoveIdIdempotent(toasts: seq<ToastItem>, id: int)
    ensures RemoveId(RemoveId(toasts, id), id) == RemoveId(toasts, id)
  {
  }

  /** The order in which two toasts are dismissed does not matter. */
  lemma {:induction false} RemoveIdCommutes(toasts: seq<ToastItem>, a: int, b: int)
    ensures RemoveId(RemoveId(toasts, a), b) == RemoveId(RemoveId(toasts, b), a)
    decreases |toasts|
  {
    if |toasts| > 0 {
      var x := toasts[0];
      var rest := toasts[1..];
      RemoveIdCommutes(rest, a, b);
      assert toasts == [x] + rest;
      RemoveIdAppend([x], rest, a);
      RemoveIdAppend([x], rest, b);
      RemoveIdSingle(x, a);
      RemoveIdSingle(x, b);
      RemoveIdAppend(RemoveId([x], a), RemoveId(rest, a), b);
      RemoveIdAppend(RemoveId([x], b), RemoveId(rest, b), a);
      if x.id != a { RemoveIdSingle(x, b); }
      if x.id != b { RemoveIdSingle(x, a); }
    }
  }

  lemma IncreasingTail(toasts: seq<ToastItem>)
    requires Increasing(toasts) && |toasts| > 0
    ensures Increasing(toasts[1..])
    ensures forall j :: 0 <= j < |toasts[1..]| ==> toasts[0].id < toasts[1..][j].id
  {
  }

  lemma IncreasingCons(x: ToastItem, tail: seq<ToastItem>)
    requires Increasing(tail)
    requires forall y :: y in tail ==> x.id < y.id
    ensures Increasing([x] + tail)
  {
  }

  /** Filtering keeps the ids increasing. */
  lemma {:induction false} RemoveIdIncreasing(toasts: seq<ToastItem>, id: int)
    requires Increasing(toasts)
    ensures Increasing(RemoveId(toasts, id))
    decreases |toasts|
  {
    if |toasts| > 0 {
      var rest := toasts[1..];
      IncreasingTail(toasts);
      RemoveIdIncreasing(rest, id);
      if toasts[0].id != id {
        var tail := RemoveId(rest, id);
        forall y | y in tail
          ensures toasts[0].id < y.id
        {
          var k :| 0 <= k < |rest| && rest[k] == y;
        }
        IncreasingCons(toasts[0], tail);
      }
    }
  }

  // ---------------------------------------------------------------------
  // The provider as a state machine

  /** Everything that changes the provider's state: a `toast(...)` call,
      a `dismiss(id)` call (the context function or a card's close
      button), a card's mouse-enter or focus handler, and a timer firing. */
  datatype Event =
    | ToastCalled(opts: ToastOptions)
    | DismissCalled(id: int)
    | CardHovered(id: int)
    | CardFocused(id: int)
    | TimerFired(id: int)

  /** A timer can only fire while it is pending: `dismiss` cancels it. */
  predicate Enabled(q: Queue, e: Event) {
    e.TimerFired? ==> e.id in q.timers
  }

  /** The card's hover and focus handlers are its close handler, and the
      timer callback is `() => dismiss(id)`. */
  function Step(q: Queue, e: Event): (t: Transition)
    ensures e.ToastCalled? ==> t == Enqueue(q, e.opts)
    ensures !e.ToastCalled? ==> t == Dismiss(q, e.id)
  {
    match e
    case ToastCalled(opts) => Enqueue(q, opts)
    case DismissCalled(id) => Dismiss(q, id)
    case CardHovered(id) => Dismiss(q, id)
    case CardFocused(id) => Dismiss(q, id)
    case TimerFired(id) => Dismiss(q, id)
  }

  /** The queue after a sequence of events. */
  function Run(q: Queue, events: seq<Event>): Queue
    decreases |events|
  {
    if |events| == 0 then q else Run(Step(q, events[0]).queue, events[1..])
  }

  /** `toast` keeps the queue valid; the new id is above every id in the
      list, and a timer entry for it exists exactly when one was scheduled. */
  lemma EnqueueValid(q: Queue, opts: ToastOptions)
    requires Valid(q)
    ensures var q' := Enqueue(q, opts).queue;
      && Valid(q')
      && (forall i :: 0 <= i < |q.toasts| ==> q.toasts[i].id < q'.counter)
      && ((q'.counter in q'.timers) <==> TimerDelay(opts.duration).Some?)
      && (TimerDelay(opts.duration).Some? <==> opts.duration != Some(0))
  {
  }

  /** `dismiss` keeps the queue valid. */
  lemma DismissValid(q: Queue, id: int)
    requires Valid(q)
    ensures Valid(Dismiss(q, id).queue)
  {
    var q' := Dismiss(q, id).queue;
    RemoveIdIncreasing(q.toasts, id);
    forall i | 0 <= i < |q'.toasts|
      ensures 1 <= q'.toasts[i].id <= q'.counter
    {
      assert q'.toasts[i] in q.toasts;
    }
    forall k | k in q'.timers
      ensures HasId(q'.toasts, k)
    {
      var i :| 0 <= i < |q.toasts| && q.toasts[i].id == k;
      assert q.toasts[i] in q'.toasts;
      var j :| 0 <= j < |q'.toasts| && q'.toasts[j] == q.toasts[i];
    }
  }

  lemma StepValid(q: Queue, e: Event)
    requires Valid(q)
    ensures Valid(Step(q, e).queue)
    ensures Step(q, e).queue.counter >= q.counter
  {
    match e
    case ToastCalled(opts) => EnqueueValid(q, opts);
    case DismissCalled(id) => DismissValid(q, id);
    case CardHovered(id) => DismissValid(q, id);
    case CardFocused(id) => DismissValid(q, id);
    case TimerFired(id) => DismissValid(q, id);
  }

  /** Every queue reachable from a valid one is valid, and the counter
      never goes back, so an id once handed out is never handed out
      again: the next `toast` gets `counter + 1`. */
  lemma {:induction false} RunValid(q: Queue, events: seq<Event>)
    requires Valid(q)
    ensures Valid(Run(q, events))
    ensures Run(q, events).counter >= q.counter
    decreases |events|
  {
    if |events| > 0 {
      StepValid(q, events[0]);
      RunValid(Step(q, events[0]).queue, events[1..]);
    }
  }

  /** The ids handed out by the `toast` calls among `events`, in order. */
  function IssuedIds(q: Queue, events: seq<Event>): seq<int>
    decreases |events|
  {
    if |events| == 0 then []
    else (if events[0].ToastCalled? then [q.counter + 1] else [])
         + IssuedIds(Step(q, events[0]).queue, events[1..])
  }

  /** Over any history, the `toast` calls receive the consecutive ids
      after the counter: from a fresh provider 1, 2, 3, … whatever was
      dismissed in between. So ids strictly increase and none is reused. */
  lemma {:induction false} IssuedIdsConsecutive(q: Queue, events: seq<Event>)
    ensures forall i :: 0 <= i < |IssuedIds(q, events)| ==> IssuedIds(q, events)[i] == q.counter + 1 + i
    decreases |events|
  {
    if |events| > 0 {
      var q' := Step(q, events[0]).queue;
      IssuedIdsConsecutive(q', events[1..]);
      var rest := IssuedIds(q', events[1..]);
      if events[0].ToastCalled? {
        assert q'.counter == q.counter + 1;
        assert IssuedIds(q, events) == [q.counter + 1] + rest;
      } else {
        assert q'.counter == q.counter;
        assert IssuedIds(q, events) == rest;
      }
    }
  }

  lemma IssuedIdsIncreasing(q: Queue, events: seq<Event>)
    ensures var ids := IssuedIds(q, events);
      forall i, j :: 0 <= i < j < |ids| ==> q.counter < ids[i] < ids[j]
  {
    IssuedIdsConsecutive(q, events);
  }

  /** A timer firing for `x` removes every toast with id `x` and its timer,
      keeps the other toasts in order, and leaves the other timers alone:
      it is `dismiss(x)`. Firing again, or dismissing afterwards, changes
      nothing. */
  lemma TimerFiredDismisses(q: Queue, x: int)
    ensures var q' := Step(q, TimerFired(x)).queue;
      && !HasId(q'.toasts, x)
      && x !in q'.timers
      && q'.toasts == RemoveId(q.toasts, x)
      && (forall k :: k in q.timers && k != x ==> k in q'.timers && q'.timers[k] == q.timers[k])
      && Dismiss(q', x).queue == q'
  {
    var q' := Step(q, TimerFired(x)).queue;
    RemoveIdRemovesAll(q.toasts, x);
    RemoveIdIdempotent(q.toasts, x);
  }

  /** Dismissing an id that is not in the queue (never issued, or already
      dismissed) changes nothing and cancels no timer. */
  lemma DismissAbsent(q: Queue, id: int)
    requires Valid(q)
    requires !HasId(q.toasts, id)
    ensures Dismiss(q, id) == Transition(q, [])
  {
    RemoveIdAbsent(q.toasts, id);
  }

  /** `dismiss` is idempotent. */
  lemma DismissIdempotent(q: Queue, id: int)
    ensures Dismiss(Dismiss(q, id).queue, id).queue == Dismiss(q, id).queue
  {
    RemoveIdIdempotent(q.toasts, id);
  }

  /** A toast without a pending timer (one created with duration 0) stays
      in the queue until its own id is dismissed: no other event, and no
      timer, removes it. */
  lemma PersistentToastStays(q: Queue, t: ToastItem, e: Event)
    requires Valid(q)
    requires t in q.toasts && t.id !in q.timers
    requires Enabled(q, e)
    requires !e.ToastCalled? ==> e.id != t.id
    ensures t in Step(q, e).queue.toasts
    ensures t.id !in Step(q, e).queue.timers
  {
  }

  /** The auto-dismiss scenario: a toast with duration 3000 on a fresh
      provider gets id 1 and a 3000 ms timer; when it fires the list is
      empty again. A toast with duration 0 gets no timer. */
  lemma AutoDismissScenario(opts: ToastOptions, opts0: ToastOptions)
    requires opts.duration == Some(3000)
    requires opts0.duration == Some(0)
    ensures Enqueue(Init(), opts0).queue.timers == map[]
    ensures Enqueue(Init(), opts0).effects == []
    ensures var t := Enqueue(Init(), opts);
      && t.queue.toasts[0].id == 1
      && t.queue.timers == map[1 := 3000]
      && t.effects == [ScheduleDismiss(1, 3000)]
      && Step(t.queue, TimerFired(1)).queue.toasts == []
      && Step(t.queue, TimerFired(1)).queue.timers == map[]
  {
  }

  // ---------------------------------------------------------------------
  // One rendered card

  datatype Role = Alert | Status

  datatype CardView = CardView(
    role: Role,
    labelledBy: Option<string>,
    describedBy: Option<string>,
    titleBlock: Option<AriaIds.TextBlock>,
    descriptionBlock: Option<AriaIds.TextBlock>,
    messageBlock: Option<AriaIds.TextBlock>)

  /** Error toasts interrupt (`alert`); the others are polite (`status`). */
  function RoleOf(v: Variant): (r: Role)
    ensures r == Alert <==> v == Error
    ensures r == Status <==> v != Error
  {
    if v == Error then Alert else Status
  }

  /** A toast enqueued without a variant is an `info` toast, so its card is
      a polite `status`; it is an `alert` exactly when `error` was asked for. */
  lemma EnqueuedRole(q: Queue, opts: ToastOptions)
    ensures var item := Enqueue(q, opts).queue.toasts[|q.toasts|];
      && (opts.variant.None? ==> RoleOf(item.variant) == Status)
      && (RoleOf(item.variant) == Alert <==> opts.variant == Some(Error))
  {
  }

  /** `buildDescribedBy`: the description id, then the message id, each when
      its text is truthy; `undefined` when neither is. */
  function BuildDescribedBy(item: ToastItem, descId: string, messageId: string): (r: Option<string>)
    ensures r.None? <==> !Truthy(item.description) && !Truthy(item.message)
  {
    AriaIds.DescribedBy("d-" + descId, item.description, "m-" + messageId, item.message)
  }

  /** `ToastCard` for an item, given the three ids `useId` produced. */
  function RenderCard(item: ToastItem, labelId: string, descId: string, messageId: string): CardView {
    CardView(
      RoleOf(item.variant),
      if Truthy(item.title) then Some("t-" + labelId) else None,
      BuildDescribedBy(item, descId, messageId),
      AriaIds.ShowIf("t-" + labelId, None, item.title),
      AriaIds.ShowIf("d-" + descId, None, item.description),
      AriaIds.ShowIf("m-" + messageId, None, item.message))
  }

  /** The card's ARIA references point at exactly the blocks it renders:
      `aria-describedby` lists the description block then the message
      block, each exactly when it is rendered, and `aria-labelledby` is the
      title block's id exactly when the title is rendered. */
  lemma CardReferencesRenderedBlocks(item: ToastItem, labelId: string, descId: string, messageId: string)
    requires AriaIds.WhitespaceFree(descId) && AriaIds.WhitespaceFree(messageId)
    ensures var c := RenderCard(item, labelId, descId, messageId);
      && AriaIds.Referenced(c.describedBy) == AriaIds.RenderedIds([c.descriptionBlock, c.messageBlock])
      && (c.labelledBy.Some? <==> c.titleBlock.Some?)
      && (c.labelledBy.Some? ==> c.labelledBy.value == c.titleBlock.value.domId)
  {
    AriaIds.ConcatToken("d-", descId);
    AriaIds.ConcatToken("m-", messageId);
    AriaIds.DescribedByMatchesRendered("d-" + descId, item.description, None,
                                       "m-" + messageId, item.message, None);
  }
}
