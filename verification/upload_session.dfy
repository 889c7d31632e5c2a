/** A sequence of user actions on the upload component, each followed by
    the overflow effect, and the invariant the component keeps across any
    such sequence. */
module UploadSession {
  import opened Wrappers
  import opened JsArray
  import opened UploadImage

  /** What the user can do: pick files, delete the preview at a rendered
      position (positions come from the list's `map`, so never negative),
      or close the modal. */
  datatype Event<F> = AddFiles(picked: Option<seq<Picked<F>>>) | DeleteAt(index: nat) | Dismiss

  /** One action, then the overflow effect. React runs the effect only when
      `showImages` or the overflow flag changed; running it after every action
      is the same, because on a steady state it changes nothing
      (`EffectIdleWhenConsistent`). */
  function Handle<F>(g: Gallery<F>, e: Event<F>): Gallery<F> {
    var handled := match e
      case AddFiles(picked) => AddImages(g, picked)
      case DeleteAt(index) => DeleteImage(g, index)
      case Dismiss => CloseModal(g);
    OverflowEffect(handled)
  }

  /** The state after a whole sequence of actions. */
  function Run<F>(g: Gallery<F>, events: seq<Event<F>>): Gallery<F>
    decreases |events|
  {
    if events == [] then g else Run(Handle(g, events[0]), events[1..])
  }

  /** The component's steady state: lists aligned, within the cap, and the
      overflow flag down. */
  predicate Consistent<F>(g: Gallery<F>) {
    Aligned(g) && |g.showImages| <= MaxImageCount && !g.imageOverflow
  }

  /** On a steady state the overflow effect is a no-op, so running it when
      React would skip it makes no difference. */
  lemma EffectIdleWhenConsistent<F>(g: Gallery<F>)
    requires Consistent(g)
    ensures OverflowEffect(g) == g
  {
  }

  /** Every single action keeps the steady state. */
  lemma HandleKeepsConsistent<F>(g: Gallery<F>, e: Event<F>)
    requires Consistent(g)
    ensures Consistent(Handle(g, e))
  {
  }

  /** However many files are picked and deleted, the lists stay aligned, the
      count never passes the cap, and the overflow flag ends down. */
  lemma {:induction false} RunKeepsConsistent<F>(g: Gallery<F>, events: seq<Event<F>>)
    requires Consistent(g)
    ensures Consistent(Run(g, events))
    decreases |events|
  {
    if events != [] {
      HandleKeepsConsistent(g, events[0]);
      RunKeepsConsistent(Handle(g, events[0]), events[1..]);
    }
  }

  /** The overflow flag the add handler raises never outlives the effect:
      the handler has already cut the lists to exactly the cap, so the effect
      lowers the flag again, while the modal stays open. */
  lemma OverflowFlagClearedByEffect<F>(g: Gallery<F>, items: seq<Picked<F>>)
    requires Consistent(g)
    requires |g.showImages| + |items| > MaxImageCount
    ensures AddImages(g, Some(items)).imageOverflow
    ensures var after := Handle(g, AddFiles(Some(items)));
            !after.imageOverflow && after.isClick && |after.showImages| == MaxImageCount
  {
  }

  /** From an empty component, picking files keeps the first ones up to the
      cap, in pick order. */
  lemma FirstPickFromEmpty<F>(items: seq<Picked<F>>)
    ensures var g := Handle(Gallery([], [], false, false), AddFiles(Some(items)));
            var n := if |items| <= MaxImageCount then |items| else MaxImageCount;
            g.images == Files(items)[..n] && g.showImages == Urls(items)[..n]
  {
  }
}
