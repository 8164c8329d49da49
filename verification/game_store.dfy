/**
 * The game-record store of the app's context provider: the `games` list and the
 * four operations over it (append, delete by id, merge-patch by id, find by id),
 * plus the shared `isDownloading` flag the download flow consults.
 */
module GameStore {
  import opened Wrappers
  import opened GameTypes

  /** Some record of `gs` carries `id`. */
  predicate HasId(gs: seq<Game>, id: string) {
    exists i :: 0 <= i < |gs| && gs[i].id == id
  }

  /** No two records of `gs` carry the same id. */
  predicate UniqueIds(gs: seq<Game>) {
    forall i, j :: 0 <= i < j < |gs| ==> gs[i].id != gs[j].id
  }

  /** Every record satisfies the pairing invariant. */
  predicate AllPaired(gs: seq<Game>) {
    forall i :: 0 <= i < |gs| ==> Paired(gs[i])
  }

  /** `games.find(game => game.id === id)`: the first record carrying `id`, if any. */
  function Find(gs: seq<Game>, id: string): (r: Option<Game>)
    ensures r.None? <==> !HasId(gs, id)
    ensures r.Some? ==> exists i :: 0 <= i < |gs| && gs[i] == r.value && r.value.id == id &&
                                    !HasId(gs[..i], id)
  {
    if gs == [] then None
    else if gs[0].id == id then (assert gs[..0] == []; Some(gs[0]))
    else
      var r := Find(gs[1..], id);
      if r.None? then None
      else
        var i :| 0 <= i < |gs[1..]| && gs[1..][i] == r.value && r.value.id == id && !HasId(gs[1..][..i], id);
        assert gs[..i + 1] == [gs[0]] + gs[1..][..i];
        r
  }

  /** `games.filter(game => game.id !== id)`. */
  function Without(gs: seq<Game>, id: string): (r: seq<Game>)
    ensures |r| <= |gs|
    ensures !HasId(r, id)
  {
    if gs == [] then []
    else
      var rest := Without(gs[1..], id);
      if gs[0].id == id then rest else [gs[0]] + rest
  }

  /** Every record with another id keeps its number of occurrences. */
  lemma {:induction false} WithoutCounts(gs: seq<Game>, id: string)
    ensures forall g :: multiset(Without(gs, id))[g] == if g.id == id then 0 else multiset(gs)[g]
  {
    if gs != [] {
      WithoutCounts(gs[1..], id);
      assert gs == [gs[0]] + gs[1..];
    }
  }

  /** `games.map(game => game.id === id ? { ...game, ...p } : game)`. */
  function Updated(gs: seq<Game>, id: string, p: Patch): (r: seq<Game>)
    ensures |r| == |gs|
    ensures forall i :: 0 <= i < |gs| && gs[i].id != id ==> r[i] == gs[i]
    ensures forall i :: 0 <= i < |gs| && gs[i].id == id ==> r[i] == Merge(gs[i], p)
  {
    if gs == [] then []
    else [if gs[0].id == id then Merge(gs[0], p) else gs[0]] + Updated(gs[1..], id, p)
  }

  /** Deletion keeps the survivors in their relative order: it distributes over concatenation. */
  lemma {:induction false} WithoutConcat(a: seq<Game>, b: seq<Game>, id: string)
    ensures Without(a + b, id) == Without(a, id) + Without(b, id)
  {
    if a == [] {
      assert a + b == b;
    } else {
      var ab := a + b;
      assert ab[0] == a[0] && ab[1..] == a[1..] + b;
      WithoutConcat(a[1..], b, id);
      var x, y := Without(a[1..], id), Without(b, id);
      assert Without(ab, id) == (if a[0].id == id then [] else [a[0]]) + Without(ab[1..], id);
      assert Without(a, id) == (if a[0].id == id then [] else [a[0]]) + x;
      assert (if a[0].id == id then [] else [a[0]]) + (x + y) ==
             ((if a[0].id == id then [] else [a[0]]) + x) + y;
    }
  }

  /** Deleting an id that no record carries leaves the list as it was. */
  lemma {:induction false} WithoutAbsent(gs: seq<Game>, id: string)
    requires !HasId(gs, id)
    ensures Without(gs, id) == gs
  {
    if gs != [] {
      assert !HasId(gs[1..], id) by {
        forall i | 0 <= i < |gs[1..]| ensures gs[1..][i].id != id {
          assert gs[1..][i] == gs[i + 1];
        }
      }
      WithoutAbsent(gs[1..], id);
      assert gs == [gs[0]] + gs[1..];
    }
  }

  /** Updating an id that no record carries leaves the list as it was. */
  lemma UpdatedAbsent(gs: seq<Game>, id: string, p: Patch)
    requires !HasId(gs, id)
    ensures Updated(gs, id, p) == gs
  {
  }

  /** An update after a delete of the same id changes nothing: the record is not brought back,
      and a lookup still finds nothing. */
  lemma UpdateAfterRemove(gs: seq<Game>, id: string, p: Patch)
    ensures Updated(Without(gs, id), id, p) == Without(gs, id)
    ensures Find(Updated(Without(gs, id), id, p), id) == None
  {
    UpdatedAbsent(Without(gs, id), id, p);
  }

  /** After an update that does not rewrite the id, a lookup finds the first match merged
      with the patch, or still nothing. */
  lemma {:induction false} FindAfterUpdate(gs: seq<Game>, id: string, p: Patch)
    requires p.id.None? || p.id == Some(id)
    ensures Find(Updated(gs, id, p), id) ==
            match Find(gs, id)
            case None => None
            case Some(g) => Some(Merge(g, p))
  {
    if gs != [] {
      var u := Updated(gs, id, p);
      assert u[1..] == Updated(gs[1..], id, p);
      if gs[0].id != id {
        FindAfterUpdate(gs[1..], id, p);
      }
    }
  }

  /** An appended record is found by its id only if no earlier record carries that id:
      `addGame` does not check for duplicates, and `find` returns the earlier one. */
  lemma FindAfterAdd(gs: seq<Game>, g: Game)
    ensures !HasId(gs, g.id) ==> Find(gs + [g], g.id) == Some(g)
    ensures HasId(gs, g.id) ==> Find(gs + [g], g.id) == Find(gs, g.id)
  {
    FindAppend(gs, g, g.id);
  }

  lemma {:induction false} FindAppend(gs: seq<Game>, g: Game, id: string)
    ensures Find(gs + [g], id) == if HasId(gs, id) then Find(gs, id) else Find([g], id)
  {
    if gs != [] {
      assert (gs + [g])[1..] == gs[1..] + [g];
      FindAppend(gs[1..], g, id);
      if gs[0].id != id {
        assert HasId(gs, id) <==> HasId(gs[1..], id) by {
          if HasId(gs, id) {
            var i :| 0 <= i < |gs| && gs[i].id == id;
            assert gs[1..][i - 1] == gs[i];
          }
          if HasId(gs[1..], id) {
            var i :| 0 <= i < |gs[1..]| && gs[1..][i].id == id;
            assert gs[i + 1] == gs[1..][i];
          }
        }
      }
    } else {
      assert gs + [g] == [g];
    }
  }

  /** Appending keeps the ids unique exactly when the new id is fresh. */
  lemma AddKeepsUniqueIff(gs: seq<Game>, g: Game)
    requires UniqueIds(gs)
    ensures UniqueIds(gs + [g]) <==> !HasId(gs, g.id)
  {
    var s := gs + [g];
    if HasId(gs, g.id) {
      var i :| 0 <= i < |gs| && gs[i].id == g.id;
      assert s[i].id == s[|gs|].id;
    }
  }

  lemma UniqueCons(x: Game, s: seq<Game>)
    ensures UniqueIds([x] + s) <==> UniqueIds(s) && forall k :: 0 <= k < |s| ==> s[k].id != x.id
  {
    var r := [x] + s;
    if UniqueIds(r) {
      forall i, j | 0 <= i < j < |s| ensures s[i].id != s[j].id {
        assert r[i + 1] == s[i] && r[j + 1] == s[j];
      }
      forall k | 0 <= k < |s| ensures s[k].id != x.id {
        assert r[0] == x && r[k + 1] == s[k];
        assert r[0].id != r[k + 1].id;
      }
    }
  }

  /** Every record left by a delete was in the list before it. */
  lemma WithoutFrom(gs: seq<Game>, id: string, k: nat)
    requires k < |Without(gs, id)|
    ensures Without(gs, id)[k] in gs
  {
    var w := Without(gs, id);
    WithoutCounts(gs, id);
    assert w[k] in multiset(w);
  }

  /** Deleting keeps the ids unique. */
  lemma {:induction false} RemoveKeepsUnique(gs: seq<Game>, id: string)
    requires UniqueIds(gs)
    ensures UniqueIds(Without(gs, id))
  {
    if gs != [] {
      assert gs == [gs[0]] + gs[1..];
      UniqueCons(gs[0], gs[1..]);
      RemoveKeepsUnique(gs[1..], id);
      var rest := Without(gs[1..], id);
      if gs[0].id != id {
        forall k | 0 <= k < |rest| ensures rest[k].id != gs[0].id {
          WithoutFrom(gs[1..], id, k);
        }
        UniqueCons(gs[0], rest);
      }
    }
  }

  /** Updating with a patch that does not rewrite the id keeps the ids unique. */
  lemma UpdateKeepsUnique(gs: seq<Game>, id: string, p: Patch)
    requires UniqueIds(gs)
    requires p.id.None? || p.id == Some(id)
    ensures UniqueIds(Updated(gs, id, p))
  {
    var r := Updated(gs, id, p);
    forall i | 0 <= i < |gs| ensures r[i].id == gs[i].id { }
  }

  /** Append, delete and pair-safe updates keep every record paired. */
  lemma OperationsKeepPaired(gs: seq<Game>, g: Game, id: string, p: Patch)
    requires AllPaired(gs)
    ensures Paired(g) ==> AllPaired(gs + [g])
    ensures AllPaired(Without(gs, id))
    ensures PairSafe(p) ==> AllPaired(Updated(gs, id, p))
  {
    var w := Without(gs, id);
    forall k | 0 <= k < |w| ensures Paired(w[k]) {
      WithoutFrom(gs, id, k);
    }
    if PairSafe(p) {
      var u := Updated(gs, id, p);
      forall i | 0 <= i < |gs| ensures Paired(u[i]) {
        if gs[i].id == id {
          MergeKeepsPaired(gs[i], p);
        }
      }
    }
  }

  /**
   * The provider's state: the `games` list (rehydrated from what was last saved) and
   * the `isDownloading` flag. `updates` is a ghost record of every `updateGame` call,
   * in order, and `flagWrites` of every value written to the flag, so that callers can
   * state how many updates and flag changes they made.
   */
  class Store {
    var games: seq<Game>
    var isDownloading: bool
    ghost var updates: seq<(string, Patch)>
    ghost var flagWrites: seq<bool>

    constructor (saved: seq<Game>)
      ensures games == saved && !isDownloading && updates == [] && flagWrites == []
    {
      games := saved;
      isDownloading := false;
      updates := [];
      flagWrites := [];
    }

    /** `addGame`: append, with no check for an existing id. */
    method AddGame(game: Game)
      modifies this`games
      ensures games == old(games) + [game]
      ensures |games| == |old(games)| + 1 && games[..|old(games)|] == old(games)
    {
      games := games + [game];
    }

    /** `removeGame`. */
    method RemoveGame(id: string)
      modifies this`games
      ensures games == Without(old(games), id)
      ensures !HasId(games, id)
      ensures !HasId(old(games), id) ==> games == old(games)
    {
      games := Without(games, id);
      if !HasId(old(games), id) {
        WithoutAbsent(old(games), id);
      }
    }

    /** `updateGame`: one merge over the list, logged once. */
    method UpdateGame(id: string, patch: Patch)
      modifies this`games, this`updates
      ensures games == Updated(old(games), id, patch)
      ensures updates == old(updates) + [(id, patch)]
    {
      games := Updated(games, id, patch);
      updates := updates + [(id, patch)];
    }

    /** `getGame`. */
    function GetGame(id: string): (r: Option<Game>)
      reads this
      ensures r.None? <==> !HasId(games, id)
      ensures r.Some? ==> exists i :: 0 <= i < |games| && games[i] == r.value && r.value.id == id &&
                                      !HasId(games[..i], id)
    {
      Find(games, id)
    }

    /** `setIsDownloading`. */
    method SetIsDownloading(state: bool)
      modifies this`isDownloading, this`flagWrites
      ensures isDownloading == state
      ensures flagWrites == old(flagWrites) + [state]
    {
      isDownloading := state;
      flagWrites := flagWrites + [state];
    }
  }
}
