/** The layered set of unspent outputs.

    A `CoinsCache` records changes on top of another view without touching it: a coin, or a
    tombstone that hides one. Whatever the depth of the stack, what a layer shows is a plain
    finite map, `View()`, and every operation below is specified by its effect on that map. */
module Coins {
  import opened Primitives

  /** What a layer of changes shows when laid over `base`. */
  ghost function Overlay(entries: map<OutPoint, Option<Coin>>, base: CoinSet): CoinSet {
    map o | o in base.Keys + entries.Keys && (o in entries ==> entries[o].Some?)
      :: if o in entries then entries[o].value else base[o]
  }

  /** No tombstone hides nothing: the layer remembers a spent coin only while the view below
      still shows it. */
  ghost predicate Tight(entries: map<OutPoint, Option<Coin>>, base: CoinSet) {
    forall o :: o in entries && entries[o].None? ==> o in base
  }

  function Lookup(view: CoinSet, o: OutPoint): Option<Coin> {
    if o in view then Some(view[o]) else None
  }

  function Written(view: CoinSet, o: OutPoint, coin: Option<Coin>): CoinSet {
    if coin.Some? then view[o := coin.value] else view - {o}
  }

  /** One more recorded change shows as one more write. */
  lemma OverlayExtend(entries: map<OutPoint, Option<Coin>>, base: CoinSet, o: OutPoint, coin: Option<Coin>)
    ensures Overlay(entries[o := coin], base) == Written(Overlay(entries, base), o, coin)
  {
  }

  class CoinsCache {
    /** The layer below, or null for the bottom layer, which lies over `backing`. */
    const base: CoinsCache?
    var backing: CoinSet
    var entries: map<OutPoint, Option<Coin>>
    ghost const layers: set<CoinsCache>

    /** The stack below is finite and this layer is not part of it. */
    ghost predicate Stacked()
      decreases layers
    {
      && this in layers
      && (base == null ==> layers == {this})
      && (base != null ==> this !in base.layers && layers == {this} + base.layers && base.Stacked())
    }

    ghost function BaseView(): CoinSet
      requires Stacked()
      reads layers
      decreases layers, 0
    {
      if base == null then backing else base.View()
    }

    ghost function View(): CoinSet
      requires Stacked()
      reads layers
      decreases layers, 1
    {
      Overlay(entries, BaseView())
    }

    ghost predicate IsTight()
      requires Stacked()
      reads layers
    {
      Tight(entries, BaseView())
    }

    constructor Bottom(backing: CoinSet)
      ensures Stacked() && layers == {this} && base == null
      ensures View() == backing && entries == map[]
    {
      this.backing, entries, base := backing, map[], null;
      layers := {this};
      new;
      assert View() == backing;
    }

    constructor Over(base: CoinsCache)
      requires base.Stacked()
      ensures Stacked() && this.base == base && layers == {this} + base.layers
      ensures fresh(this)
      ensures BaseView() == base.View() == View() && entries == map[]
    {
      this.base, backing, entries := base, map[], map[];
      layers := {this} + base.layers;
      new;
      assert View() == base.View();
    }

    method GetCoin(o: OutPoint) returns (coin: Option<Coin>)
      requires Stacked()
      ensures coin == Lookup(View(), o)
      decreases layers
    {
      if o in entries {
        return entries[o];
      }
      if base == null {
        return Lookup(backing, o);
      }
      coin := base.GetCoin(o);
    }

    method HaveCoin(o: OutPoint) returns (have: bool)
      requires Stacked()
      ensures have == (o in View())
      decreases layers
    {
      if o in entries {
        return entries[o].Some?;
      }
      if base == null {
        return o in backing;
      }
      have := base.HaveCoin(o);
    }

    method BaseHasCoin(o: OutPoint) returns (have: bool)
      requires Stacked()
      ensures have == (o in BaseView())
    {
      if base == null {
        return o in backing;
      }
      have := base.HaveCoin(o);
    }

    method MarkSpent(o: OutPoint)
      requires Stacked()
      modifies this`entries
      ensures View() == old(View()) - {o}
      ensures old(IsTight()) ==> IsTight()
    {
      var needed := BaseHasCoin(o);
      if needed {
        entries := entries[o := None];
      } else {
        entries := entries - {o};
      }
      assert View() == old(View()) - {o};
    }

    method Write(o: OutPoint, coin: Option<Coin>)
      requires Stacked()
      modifies this`entries
      ensures View() == Written(old(View()), o, coin)
      ensures old(IsTight()) ==> IsTight()
    {
      if coin.Some? {
        entries := entries[o := coin];
        assert View() == old(View())[o := coin.value];
      } else {
        MarkSpent(o);
      }
    }

    method AddCoin(o: OutPoint, coin: Coin) returns (added: bool)
      requires Stacked()
      modifies this`entries
      ensures added == (o !in old(View()))
      ensures View() == if added then old(View())[o := coin] else old(View())
      ensures old(IsTight()) ==> IsTight()
    {
      var present := HaveCoin(o);
      if present {
        return false;
      }
      entries := entries[o := Some(coin)];
      assert View() == old(View())[o := coin];
      return true;
    }

    method SpendCoin(o: OutPoint) returns (coin: Option<Coin>)
      requires Stacked()
      modifies this`entries
      ensures coin == Lookup(old(View()), o)
      ensures View() == old(View()) - {o}
      ensures old(IsTight()) ==> IsTight()
    {
      coin := GetCoin(o);
      if coin.Some? {
        MarkSpent(o);
      } else {
        assert View() == View() - {o};
      }
    }

    /** Moves this layer's changes into the layer it lies over, entry by entry in whatever
        order the table yields them. The order does not matter: the layer below ends up
        showing exactly what this one showed. */
    method Flush()
      requires Stacked() && base != null
      modifies this`entries, base`entries
      ensures base.View() == old(View()) && entries == map[]
      ensures View() == old(View())
      ensures old(base.IsTight()) ==> base.IsTight()
    {
      var pending := entries.Keys;
      ghost var below := base.View();
      ghost var done: map<OutPoint, Option<Coin>> := map[];
      assert Overlay(done, below) == below;
      while pending != {}
        invariant pending <= entries.Keys && entries == old(entries)
        invariant done == entries - pending
        invariant base.View() == Overlay(done, below)
        invariant old(base.IsTight()) ==> base.IsTight()
        decreases pending
      {
        var o :| o in pending;
        OverlayExtend(done, below, o, entries[o]);
        base.Write(o, entries[o]);
        done, pending := done[o := entries[o]], pending - {o};
      }
      assert done == entries;
      entries := map[];
      assert View() == base.View();
    }

    /** Makes the bottom layer's changes durable: the storage under it now shows what the
        layer showed, and the layer is empty. A commit that succeeds cannot be seen through
        the view. */
    method Commit()
      requires Stacked() && base == null
      modifies this
      ensures View() == old(View()) == backing && entries == map[]
      ensures IsTight()
    {
      var pending := entries.Keys;
      ghost var below := backing;
      ghost var done: map<OutPoint, Option<Coin>> := map[];
      assert Overlay(done, below) == below;
      while pending != {}
        invariant pending <= entries.Keys && entries == old(entries)
        invariant done == entries - pending
        invariant backing == Overlay(done, below)
        decreases pending
      {
        var o :| o in pending;
        OverlayExtend(done, below, o, entries[o]);
        backing := Written(backing, o, entries[o]);
        done, pending := done[o := entries[o]], pending - {o};
      }
      assert done == entries;
      entries := map[];
      assert View() == backing;
    }
  }
}
