/** The universal systems of include/Systems.h. */
module Systems {
  import opened Common
  import opened Components
  import opened Ecs

  /** Entities with a `Text` but no `Drawable`: the view of
      `TextInterface::OnUpdate`. */
  function NeedsDrawable(w: World): set<Entity>
  {
    w.texts.Keys - w.drawables.Keys
  }

  /** The registry after every text without a `Drawable` has received one
      tinted by nothing but its own colour. */
  function WithTextDrawables(w: World): (r: World)
    ensures r == w.(drawables := r.drawables)
    ensures forall e :: e in r.drawables <==> e in w.drawables || e in w.texts
    ensures forall e :: e in w.drawables ==> r.drawables[e] == w.drawables[e]
    ensures forall e :: e in w.texts && e !in w.drawables ==>
      r.drawables[e].defaultTint == w.texts[e].color && r.drawables[e].tint == WHITE
  {
    w.(drawables := map e | e in w.drawables.Keys + w.texts.Keys ::
      if e in w.drawables then w.drawables[e] else DrawableOf(w.texts[e].color))
  }

  /** `drawables` after the loop of `OnUpdate` has emplaced a `Drawable` for
      each of `es`, in turn. */
  function Emplaced(drawables: map<Entity, Drawable>, texts: map<Entity, Text>, es: seq<Entity>): map<Entity, Drawable>
    requires forall i :: 0 <= i < |es| ==> es[i] in texts
  {
    if es == [] then drawables
    else
      var n := |es| - 1;
      Emplaced(drawables, texts, es[..n])[es[n] := DrawableOf(texts[es[n]].color)]
  }

  lemma EmplacedSnoc(drawables: map<Entity, Drawable>, texts: map<Entity, Text>, es: seq<Entity>, e: Entity)
    requires forall i :: 0 <= i < |es| ==> es[i] in texts
    requires e in texts
    ensures forall i :: 0 <= i < |es + [e]| ==> (es + [e])[i] in texts
    ensures Emplaced(drawables, texts, es + [e]) == Emplaced(drawables, texts, es)[e := DrawableOf(texts[e].color)]
  {
    assert (es + [e])[..|es|] == es;
  }

  /** Emplacing one at a time gives every listed text its `Drawable`. */
  lemma {:induction false} EmplacedAll(drawables: map<Entity, Drawable>, texts: map<Entity, Text>, es: seq<Entity>)
    requires forall i :: 0 <= i < |es| ==> es[i] in texts
    ensures forall e :: e in Emplaced(drawables, texts, es) <==> e in drawables || e in es
    ensures forall e :: e in Emplaced(drawables, texts, es) ==>
      Emplaced(drawables, texts, es)[e] == if e in es then DrawableOf(texts[e].color) else drawables[e]
  {
    if es != [] {
      var n := |es| - 1;
      EmplacedAll(drawables, texts, es[..n]);
      assert forall e :: e in es <==> e in es[..n] || e == es[n];
    }
  }

  /** Emplacing for exactly the entities of the view is the whole pass. */
  lemma EmplacedView(w: World, view: seq<Entity>)
    requires forall e :: e in view <==> e in NeedsDrawable(w)
    ensures forall i :: 0 <= i < |view| ==> view[i] in w.texts
    ensures w.(drawables := Emplaced(w.drawables, w.texts, view)) == WithTextDrawables(w)
  {
    assert forall i :: 0 <= i < |view| ==> view[i] in NeedsDrawable(w);
    EmplacedAll(w.drawables, w.texts, view);
    assert Emplaced(w.drawables, w.texts, view) == WithTextDrawables(w).drawables;
  }

  /** After one pass no text is left without a `Drawable`, so a second pass
      has nothing to do. */
  lemma TextSyncIdempotent(w: World)
    ensures NeedsDrawable(WithTextDrawables(w)) == {}
    ensures WithTextDrawables(WithTextDrawables(w)) == WithTextDrawables(w)
  {
    var r := WithTextDrawables(w);
    assert NeedsDrawable(r) == {};
    assert WithTextDrawables(r).drawables == r.drawables;
  }

  /** Giving texts a `Drawable` keeps the registry well formed. */
  lemma TextSyncWellFormed(w: World)
    requires WellFormed(w)
    ensures WellFormed(WithTextDrawables(w))
  {
  }

  /** The loop of `TextInterface::OnUpdate`: a `Drawable` tinted by its
      text's colour is emplaced for each entity of `view`, in turn. */
  method EmplaceDuringView(reg: Registry, view: seq<Entity>) returns (updated: bool)
    requires forall e :: e in view <==> e in NeedsDrawable(reg.world)
    modifies reg
    ensures reg.next == old(reg.next)
    ensures reg.world == WithTextDrawables(old(reg.world))
    ensures updated <==> |view| > 0
  {
    ghost var w0 := reg.world;
    EmplacedView(w0, view);
    updated := false;
    var i := 0;
    while i < |view|
      invariant 0 <= i <= |view|
      invariant reg.next == old(reg.next)
      invariant updated <==> i > 0
      invariant reg.world == w0.(drawables := Emplaced(w0.drawables, w0.texts, view[..i]))
    {
      var e := view[i];
      TakeSnoc(view, i);
      EmplacedSnoc(w0.drawables, w0.texts, view[..i], e);
      reg.world := reg.world.(drawables := reg.world.drawables[e := DrawableOf(reg.world.texts[e].color)]);
      if !updated {
        updated := true;
      }
      i := i + 1;
    }
    assert view[..i] == view;
  }

  /** `TextInterface`: a switchable system, enabled until toggled. */
  class TextInterface {
    var enabled: bool

    constructor()
      ensures enabled
    {
      enabled := true;
    }

    /** `TextInterface::Toggle`. */
    method Toggle()
      modifies this
      ensures enabled == !old(enabled)
    {
      enabled := !enabled;
    }

    /** `TextInterface::OnUpdate`: when disabled, nothing happens and the
        result is false; otherwise every text without a `Drawable` gets one
        and the result says whether there was any. The time step is not
        used. */
    method OnUpdate(reg: Registry, deltaTime: real) returns (updated: bool)
      requires reg.Valid()
      modifies reg
      ensures reg.Valid() && reg.next == old(reg.next)
      ensures !enabled ==> !updated && reg.world == old(reg.world)
      ensures enabled ==> reg.world == WithTextDrawables(old(reg.world))
      ensures enabled ==> (updated <==> NeedsDrawable(old(reg.world)) != {})
    {
      if !enabled {
        return false;
      }
      ghost var w0 := reg.world;
      var view := Select(reg.world.order, NeedsDrawable(reg.world));
      assert forall e :: e in view <==> e in NeedsDrawable(reg.world);
      updated := EmplaceDuringView(reg, view);
      if updated {
        assert view[0] in NeedsDrawable(w0);
      } else {
        assert forall e :: e in NeedsDrawable(w0) ==> e in view;
      }
      TextSyncWellFormed(w0);
    }
  }
}
