/**
 * The library page's `filteredGames`: a case-insensitive title search and a
 * three-way status filter over the store's list, then a sort by `dateAdded`,
 * newest first. The sort works on the fresh list that the filter returns, so the
 * store's own order is never touched; here the query is a function of that list.
 */
module Library {
  import opened GameTypes

  datatype StatusFilter = All | Downloaded | Hosted

  /** `toLowerCase` on one character, over ASCII. */
  function LowerChar(c: char): char {
    if 'A' <= c <= 'Z' then (c as int + 32) as char else c
  }

  function ToLower(s: string): (r: string)
    ensures |r| == |s|
    ensures forall i :: 0 <= i < |s| ==> r[i] == LowerChar(s[i])
  {
    if s == [] then [] else [LowerChar(s[0])] + ToLower(s[1..])
  }

  /** `t` occurs in `s` starting at index `i`. */
  predicate OccursAt(s: string, t: string, i: int) {
    0 <= i <= |s| - |t| && s[i..i + |t|] == t
  }

  /** `s.includes(t)`: the empty string is in every string, every string is in itself, and
      nothing longer than `s` is in it. */
  predicate Contains(s: string, t: string): (b: bool)
    ensures t == [] ==> b
    ensures s == t ==> b
    ensures b ==> |t| <= |s|
  {
    assert t == [] || s == t ==> OccursAt(s, t, 0);
    exists i :: 0 <= i <= |s| - |t| && OccursAt(s, t, i)
  }

  /** The search test: an empty term is falsy and admits everything; a title that equals the
      term up to case always matches. */
  predicate MatchesSearch(g: Game, term: string): (b: bool)
    ensures term == [] ==> b
    ensures ToLower(g.title) == ToLower(term) ==> b
  {
    assert ToLower(g.title) == ToLower(term) ==> OccursAt(ToLower(g.title), ToLower(term), 0);
    term == [] || Contains(ToLower(g.title), ToLower(term))
  }

  /** The status test: `downloaded` demands the downloaded flag, `hosted` the hosted flag. */
  predicate MatchesStatus(g: Game, filter: StatusFilter): (b: bool)
    ensures b <==> (filter == Downloaded ==> g.isDownloaded) && (filter == Hosted ==> g.isHosted)
  {
    match filter
    case All => true
    case Downloaded => g.isDownloaded
    case Hosted => g.isHosted
  }

  predicate Keep(g: Game, term: string, filter: StatusFilter) {
    MatchesSearch(g, term) && MatchesStatus(g, filter)
  }

  /** `games.filter(...)`: each record that passes both tests, as often as it occurs. Its
      counts are stated by `SelectCounts` and its order by `SelectConcat`. */
  function Select(gs: seq<Game>, term: string, filter: StatusFilter): (r: seq<Game>)
    ensures |r| <= |gs|
    ensures forall i :: 0 <= i < |r| ==> Keep(r[i], term, filter)
  {
    if gs == [] then []
    else (if Keep(gs[0], term, filter) then [gs[0]] else []) + Select(gs[1..], term, filter)
  }

  /** The filter keeps each record that passes both tests with its multiplicity and drops every other. */
  lemma {:induction false} SelectCounts(gs: seq<Game>, term: string, filter: StatusFilter)
    ensures forall g :: multiset(Select(gs, term, filter))[g] == if Keep(g, term, filter) then multiset(gs)[g] else 0
  {
    if gs != [] {
      assert gs == [gs[0]] + gs[1..];
      SelectCounts(gs[1..], term, filter);
    }
  }

  /** The filter keeps the stored order: it distributes over concatenation. */
  lemma {:induction false} SelectConcat(a: seq<Game>, b: seq<Game>, term: string, filter: StatusFilter)
    ensures Select(a + b, term, filter) == Select(a, term, filter) + Select(b, term, filter)
  {
    if a == [] {
      assert a + b == b;
    } else {
      var ab := a + b;
      assert ab != [] && ab[0] == a[0] && ab[1..] == a[1..] + b;
      SelectConcat(a[1..], b, term, filter);
      var head := if Keep(a[0], term, filter) then [a[0]] else [];
      var x, y := Select(a[1..], term, filter), Select(b, term, filter);
      calc {
        Select(ab, term, filter);
        head + Select(ab[1..], term, filter);
        head + (x + y);
        (head + x) + y;
      }
    }
  }

  /** Newest first: no record is older than one after it. */
  predicate NewestFirst(s: seq<Game>) {
    forall i, j :: 0 <= i < j < |s| ==> s[i].dateAdded >= s[j].dateAdded
  }

  /** Places `g` before the first record no newer than it; a record already in the
      list with the same date stays after `g`. */
  function Insert(g: Game, s: seq<Game>): (r: seq<Game>)
    ensures multiset(r) == multiset(s) + multiset{g}
  {
    if s == [] || g.dateAdded >= s[0].dateAdded then
      [g] + s
    else
      assert s == [s[0]] + s[1..];
      [s[0]] + Insert(g, s[1..])
  }

  lemma {:induction false} InsertKeepsOrder(g: Game, s: seq<Game>)
    requires NewestFirst(s)
    ensures NewestFirst(Insert(g, s))
  {
    if s != [] && g.dateAdded < s[0].dateAdded {
      var rest := Insert(g, s[1..]);
      InsertKeepsOrder(g, s[1..]);
      forall k | 0 <= k < |rest| ensures rest[k].dateAdded <= s[0].dateAdded {
        assert rest[k] in multiset(rest);
        if rest[k] != g {
          assert rest[k] in multiset(s[1..]);
          var j :| 0 <= j < |s[1..]| && s[1..][j] == rest[k];
          assert s[j + 1] == rest[k];
        }
      }
      var r := [s[0]] + rest;
      forall i, j | 0 <= i < j < |r| ensures r[i].dateAdded >= r[j].dateAdded {
        assert r[j] == rest[j - 1];
        if i > 0 {
          assert r[i] == rest[i - 1];
        }
      }
    }
  }

  /** `.sort((a, b) => b.dateAdded - a.dateAdded)`, which is stable. */
  function SortNewestFirst(s: seq<Game>): (r: seq<Game>)
    ensures multiset(r) == multiset(s)
    ensures NewestFirst(r)
  {
    if s == [] then []
    else
      assert s == [s[0]] + s[1..];
      InsertKeepsOrder(s[0], SortNewestFirst(s[1..]));
      Insert(s[0], SortNewestFirst(s[1..]))
  }

  /** `filteredGames`: exactly the records that pass both tests (with their multiplicity), newest first. */
  function FilteredGames(games: seq<Game>, term: string, filter: StatusFilter): (r: seq<Game>)
    ensures forall g :: multiset(r)[g] == if Keep(g, term, filter) then multiset(games)[g] else 0
    ensures NewestFirst(r)
  {
    SelectCounts(games, term, filter);
    SortNewestFirst(Select(games, term, filter))
  }

  /** Soundness of each test, and completeness: every result is a stored record that passes
      both tests, and every stored record that passes both is in the result. */
  lemma FilteredSoundComplete(games: seq<Game>, term: string, filter: StatusFilter, g: Game)
    ensures g in FilteredGames(games, term, filter) <==> g in games && Keep(g, term, filter)
    ensures g in FilteredGames(games, term, filter) && term != [] ==> Contains(ToLower(g.title), ToLower(term))
    ensures g in FilteredGames(games, term, filter) && filter == Downloaded ==> g.isDownloaded
    ensures g in FilteredGames(games, term, filter) && filter == Hosted ==> g.isHosted
  {
    var r := FilteredGames(games, term, filter);
    assert g in r <==> g in multiset(r);
    assert g in games <==> g in multiset(games);
  }

  /** With no search term and the `all` filter, the page shows a permutation of the store. */
  lemma ShowAllIsPermutation(games: seq<Game>)
    ensures multiset(FilteredGames(games, [], All)) == multiset(games)
  {
    var r := FilteredGames(games, [], All);
    forall g ensures multiset(r)[g] == multiset(games)[g] { }
  }

  /** The records of `s` added at instant `d`, in order. */
  function AddedAt(s: seq<Game>, d: Timestamp): seq<Game> {
    if s == [] then [] else (if s[0].dateAdded == d then [s[0]] else []) + AddedAt(s[1..], d)
  }

  /** One step of `AddedAt`: the first record is taken exactly when it was added at `d`. */
  lemma AddedAtCons(x: Game, t: seq<Game>, d: Timestamp)
    ensures AddedAt([x] + t, d) == (if x.dateAdded == d then [x] else []) + AddedAt(t, d)
  {
    var r := [x] + t;
    assert r[0] == x && r[1..] == t;
  }

  lemma {:induction false} InsertAddedAt(g: Game, s: seq<Game>, d: Timestamp)
    ensures AddedAt(Insert(g, s), d) == if g.dateAdded == d then [g] + AddedAt(s, d) else AddedAt(s, d)
  {
    if s == [] || g.dateAdded >= s[0].dateAdded {
      AddedAtCons(g, s, d);
    } else {
      var rest := Insert(g, s[1..]);
      var head := if s[0].dateAdded == d then [s[0]] else [];
      var tail := if g.dateAdded == d then [g] + AddedAt(s[1..], d) else AddedAt(s[1..], d);
      assert Insert(g, s) == [s[0]] + rest;
      assert s == [s[0]] + s[1..];
      AddedAtCons(s[0], rest, d);
      AddedAtCons(s[0], s[1..], d);
      InsertAddedAt(g, s[1..], d);
      calc {
        AddedAt(Insert(g, s), d);
        head + AddedAt(rest, d);
        head + tail;
      }
      if g.dateAdded == d {
        assert head + ([g] + AddedAt(s[1..], d)) == [g] + (head + AddedAt(s[1..], d));
      }
    }
  }

  /** The sort is stable: records added at the same instant keep their stored order. */
  lemma {:induction false} SortIsStable(s: seq<Game>, d: Timestamp)
    ensures AddedAt(SortNewestFirst(s), d) == AddedAt(s, d)
  {
    if s != [] {
      SortIsStable(s[1..], d);
      InsertAddedAt(s[0], SortNewestFirst(s[1..]), d);
    }
  }

  /** Choosing the records of one instant commutes with the filter. */
  lemma {:induction false} SelectAddedAt(s: seq<Game>, term: string, filter: StatusFilter, d: Timestamp)
    ensures AddedAt(Select(s, term, filter), d) == Select(AddedAt(s, d), term, filter)
  {
    if s != [] {
      SelectAddedAt(s[1..], term, filter, d);
      var head := if Keep(s[0], term, filter) then [s[0]] else [];
      var rest := Select(s[1..], term, filter);
      assert Select(s, term, filter) == head + rest;
      AddedAtConcat(head, rest, d);
      var dated := if s[0].dateAdded == d then [s[0]] else [];
      assert AddedAt(s, d) == dated + AddedAt(s[1..], d);
      SelectConcat(dated, AddedAt(s[1..], d), term, filter);
      if s[0].dateAdded == d {
        assert AddedAt(head, d) == head;
        assert Select(dated, term, filter) == head;
      } else {
        assert AddedAt(head, d) == [];
        assert Select(dated, term, filter) == [];
      }
    }
  }

  lemma {:induction false} AddedAtConcat(a: seq<Game>, b: seq<Game>, d: Timestamp)
    ensures AddedAt(a + b, d) == AddedAt(a, d) + AddedAt(b, d)
  {
    if a == [] {
      assert a + b == b;
    } else {
      var ab := a + b;
      assert ab[0] == a[0] && ab[1..] == a[1..] + b;
      AddedAtConcat(a[1..], b, d);
      var head := if a[0].dateAdded == d then [a[0]] else [];
      var x, y := AddedAt(a[1..], d), AddedAt(b, d);
      assert AddedAt(ab, d) == head + (x + y);
      assert head + (x + y) == (head + x) + y;
    }
  }

  /** On the page, records added at the same instant appear in their stored order: the ones
      that pass both tests, in the order the store holds them. */
  lemma FilteredTiesKeepStoredOrder(games: seq<Game>, term: string, filter: StatusFilter, d: Timestamp)
    ensures AddedAt(FilteredGames(games, term, filter), d) == Select(AddedAt(games, d), term, filter)
  {
    SortIsStable(Select(games, term, filter), d);
    SelectAddedAt(games, term, filter, d);
  }

  /** Ignoring case over ASCII: a title matches a term whatever the case of either. */
  lemma SearchIgnoresCase(g: Game, term: string)
    ensures MatchesSearch(g, term) <==> MatchesSearch(g.(title := ToLower(g.title)), ToLower(term))
  {
    LowerIdempotent(g.title);
    LowerIdempotent(term);
  }

  lemma {:induction false} LowerIdempotent(s: string)
    ensures ToLower(ToLower(s)) == ToLower(s)
  {
    if s != [] {
      LowerIdempotent(s[1..]);
    }
  }

  /** "Space Invaders" is found by "INVADERS". */
  lemma SearchExample(g: Game)
    requires g.title == "Space Invaders"
    ensures MatchesSearch(g, "INVADERS")
  {
    var title, word := ToLower(g.title), ToLower("INVADERS");
    assert title[6..14] == "invaders";
    assert word == "invaders";
    assert OccursAt(title, word, 6);
  }
}
