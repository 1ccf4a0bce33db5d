/** The user's favourite coins: the list of coin ids the star buttons toggle,
    the durable record it is written to after every toggle, and the
    favourites panel that shows the snapshot's favourite coins. */
module Favourites {
  import opened Sequences
  import opened Market

  function IsNot(id: CoinId): CoinId -> bool {
    y => y != id
  }

  /** `prev.filter(id => id !== coinId)`: every occurrence of `id` removed. */
  function Without(favs: seq<CoinId>, id: CoinId): seq<CoinId> {
    Select(favs, IsNot(id))
  }

  /** The list `togglefavourite` computes: drop `id` if present, otherwise append it. */
  function Toggled(favs: seq<CoinId>, id: CoinId): seq<CoinId> {
    if id in favs then Without(favs, id) else favs + [id]
  }

  lemma WithoutMembership(favs: seq<CoinId>, id: CoinId, y: CoinId)
    ensures y in Without(favs, id) <==> y in favs && y != id
  {
    SelectMembership(favs, IsNot(id), y);
  }

  /** After a toggle, `id` is a favourite exactly when it was not one before,
      and every other id keeps its status. */
  lemma ToggleMembership(favs: seq<CoinId>, id: CoinId, y: CoinId)
    ensures y in Toggled(favs, id) <==> if y == id then id !in favs else y in favs
  {
    WithoutMembership(favs, id, y);
  }

  /** Removing a present id leaves no occurrence of it, however many there were. */
  lemma TogglePresent(favs: seq<CoinId>, id: CoinId)
    requires id in favs
    ensures id !in Toggled(favs, id)
    ensures |Toggled(favs, id)| < |favs|
  {
    WithoutMembership(favs, id, id);
    WithoutShorter(favs, id);
  }

  lemma {:induction false} WithoutShorter(favs: seq<CoinId>, id: CoinId)
    requires id in favs
    ensures |Without(favs, id)| < |favs|
    decreases |favs|
  {
    if favs[0] != id {
      WithoutShorter(favs[1..], id);
    }
  }

  /** Adding an absent id puts it at the end and changes nothing before it. */
  lemma ToggleAbsent(favs: seq<CoinId>, id: CoinId)
    requires id !in favs
    ensures Toggled(favs, id)[..|favs|] == favs
    ensures |Toggled(favs, id)| == |favs| + 1 && Toggled(favs, id)[|favs|] == id
  {
  }

  /** The other ids, and their order, are the same before and after a toggle. */
  lemma ToggleKeepsOthers(favs: seq<CoinId>, id: CoinId)
    ensures Without(Toggled(favs, id), id) == Without(favs, id)
  {
    if id in favs {
      SelectIdempotent(favs, IsNot(id));
    } else {
      SelectAppend(favs, [id], IsNot(id));
    }
  }

  /** Toggling twice restores membership; from an absent id it restores the list itself. */
  lemma ToggleTwice(favs: seq<CoinId>, id: CoinId)
    ensures forall y :: y in Toggled(Toggled(favs, id), id) <==> y in favs
    ensures id !in favs ==> Toggled(Toggled(favs, id), id) == favs
  {
    forall y ensures y in Toggled(Toggled(favs, id), id) <==> y in favs {
      ToggleMembership(favs, id, y);
      ToggleMembership(Toggled(favs, id), id, y);
      ToggleMembership(favs, id, id);
    }
    if id !in favs {
      SelectAppend(favs, [id], IsNot(id));
      SelectAll(favs, IsNot(id));
    }
  }

  /** A duplicate-free list stays duplicate-free. */
  lemma ToggleNoDup(favs: seq<CoinId>, id: CoinId)
    requires NoDup(favs)
    ensures NoDup(Toggled(favs, id))
  {
    if id in favs {
      SelectNoDup(favs, IsNot(id));
    } else {
      SnocNoDup(favs, id);
    }
  }

  // ---------------------------------------------------------------------------
  // The favourites panel

  function IsFavourite(favs: seq<CoinId>): Coin -> bool {
    (c: Coin) => c.id in favs
  }

  /** `coins.filter(coin => favourites.includes(coin.id))`. */
  function Panel(coins: seq<Coin>, favs: seq<CoinId>): seq<Coin> {
    Select(coins, IsFavourite(favs))
  }

  /** The panel shows exactly the snapshot's favourite coins, in snapshot order. */
  lemma PanelSound(coins: seq<Coin>, favs: seq<CoinId>)
    ensures forall c :: c in Panel(coins, favs) <==> c in coins && c.id in favs
    ensures Subsequence(Panel(coins, favs), coins)
  {
    SelectMembershipAll(coins, IsFavourite(favs));
    SelectIsSubsequence(coins, IsFavourite(favs));
  }

  /** Only membership matters to the panel, not the order of the favourites list. */
  lemma {:induction false} PanelIgnoresOrder(coins: seq<Coin>, f1: seq<CoinId>, f2: seq<CoinId>)
    requires forall y :: y in f1 <==> y in f2
    ensures Panel(coins, f1) == Panel(coins, f2)
    decreases |coins|
  {
    if coins != [] {
      PanelIgnoresOrder(coins[1..], f1, f2);
    }
  }

  /** Toggling a coin twice leaves the panel as it was. */
  lemma PanelToggleTwice(coins: seq<Coin>, favs: seq<CoinId>, id: CoinId)
    ensures Panel(coins, Toggled(Toggled(favs, id), id)) == Panel(coins, favs)
  {
    ToggleTwice(favs, id);
    PanelIgnoresOrder(coins, Toggled(Toggled(favs, id), id), favs);
  }

  // ---------------------------------------------------------------------------
  // The stored record and the in-memory list

  /** The list read at start-up: the stored record, or empty when there is none. */
  function Load(record: Option<seq<CoinId>>): seq<CoinId> {
    match record
    case None => []
    case Some(favs) => favs
  }

  class FavouritesStore {
    /** The `favourites` state of the component. */
    var favourites: seq<CoinId>
    /** The durable `favourites` entry; `None` until the first write. */
    var record: Option<seq<CoinId>>

    constructor (stored: Option<seq<CoinId>>)
      ensures favourites == Load(stored) && record == stored
    {
      favourites := Load(stored);
      record := stored;
    }

    /** `togglefavourite`: compute the new list, write all of it to the record, keep it. */
    method ToggleFavourite(id: CoinId)
      modifies this
      ensures favourites == Toggled(old(favourites), id)
      ensures record == Some(favourites)
    {
      var updated := Toggled(favourites, id);
      record := Some(updated);
      favourites := updated;
    }
  }

  /** A toggle followed by a restart: the second store, loaded from the record
      the first one wrote, holds the toggled list, so `id` is a favourite
      exactly when it was not one before the toggle. */
  method RestartAfterToggle(stored: Option<seq<CoinId>>, id: CoinId) returns (reloaded: seq<CoinId>)
    ensures reloaded == Toggled(Load(stored), id)
    ensures id in reloaded <==> id !in Load(stored)
  {
    var store := new FavouritesStore(stored);
    store.ToggleFavourite(id);
    var restarted := new FavouritesStore(store.record);
    reloaded := restarted.favourites;
    ToggleMembership(Load(stored), id, id);
  }
}
