/**
 * The `game_cards` table: one row per physical card of a game, with the user id
 * owning it (0 is the deck, -1 the discard pile, a positive id a player) and its
 * `card_order`. Reads are functions of the rows; the statements that update the
 * owner column are methods of `CardTable`.
 */
module GameCards {
  import opened Wrappers
  import opened Errors
  import opened Cards

  const DeckOwner: int := 0
  const DiscardOwner: int := -1

  datatype Row = Row(id: int, gameId: int, cardId: int, owner: int, order: int)

  /** A `game_cards` row joined with its catalog card (`card_symbol`, `card_color`). */
  datatype DisplayCard = DisplayCard(row: Row, card: Card)

  ghost predicate UniqueIds(rows: seq<Row>)
  {
    forall i, j :: 0 <= i < j < |rows| ==> rows[i].id != rows[j].id
  }

  /** `b` differs from `a` at most in the owner column: no row added, removed, reordered or renumbered. */
  ghost predicate SameShape(a: seq<Row>, b: seq<Row>)
  {
    |a| == |b| && forall i :: 0 <= i < |a| ==> b[i] == a[i].(owner := b[i].owner)
  }

  // ---------------------------------------------------------------- filters

  /** The rows of game `gameId` owned by `owner`, in table order. */
  function RowsOwnedBy(rows: seq<Row>, gameId: int, owner: int): (r: seq<Row>)
    ensures forall x :: x in r ==> x in rows && x.gameId == gameId && x.owner == owner
  {
    if rows == [] then []
    else
      (if rows[0].gameId == gameId && rows[0].owner == owner then [rows[0]] else [])
      + RowsOwnedBy(rows[1..], gameId, owner)
  }

  /** The filter keeps every copy of every matching row and nothing else. */
  lemma {:induction false} RowsOwnedByCounts(rows: seq<Row>, gameId: int, owner: int)
    ensures forall x :: (multiset(RowsOwnedBy(rows, gameId, owner))[x] ==
      if x.gameId == gameId && x.owner == owner then multiset(rows)[x] else 0)
  {
    if rows != [] {
      RowsOwnedByCounts(rows[1..], gameId, owner);
      assert rows == [rows[0]] + rows[1..];
    }
  }

  lemma {:induction false} RowsOwnedByAppend(a: seq<Row>, b: seq<Row>, gameId: int, owner: int)
    ensures RowsOwnedBy(a + b, gameId, owner) == RowsOwnedBy(a, gameId, owner) + RowsOwnedBy(b, gameId, owner)
  {
    if a != [] {
      RowsOwnedByAppend(a[1..], b, gameId, owner);
      assert (a + b)[1..] == a[1..] + b;
    } else {
      assert a + b == b;
    }
  }

  /** The card ids of game `gameId`, whoever owns them. */
  function CardIdsOfGame(rows: seq<Row>, gameId: int): multiset<int>
  {
    if rows == [] then multiset{}
    else
      (if rows[0].gameId == gameId then multiset{rows[0].cardId} else multiset{})
      + CardIdsOfGame(rows[1..], gameId)
  }

  /** Changing owners only keeps every game's cards: nothing is created or lost. */
  lemma {:induction false} SameShapeConservesCards(a: seq<Row>, b: seq<Row>, gameId: int)
    requires SameShape(a, b)
    ensures CardIdsOfGame(a, gameId) == CardIdsOfGame(b, gameId)
  {
    if a != [] {
      assert SameShape(a[1..], b[1..]) by {
        forall i | 0 <= i < |a[1..]| ensures b[1..][i] == a[1..][i].(owner := b[1..][i].owner) {
          assert b[1..][i] == b[i + 1] && a[1..][i] == a[i + 1];
        }
      }
      SameShapeConservesCards(a[1..], b[1..], gameId);
      assert b[0] == a[0].(owner := b[0].owner);
    }
  }

  lemma SameShapeTransitive(a: seq<Row>, b: seq<Row>, c: seq<Row>)
    requires SameShape(a, b) && SameShape(b, c)
    ensures SameShape(a, c)
  {
  }

  lemma SameShapeKeepsIds(a: seq<Row>, b: seq<Row>)
    requires SameShape(a, b) && UniqueIds(a)
    ensures UniqueIds(b)
    ensures forall x :: x in b ==> exists y :: y in a && y.id == x.id
  {
  }

  // ---------------------------------------------------------------- ordering

  ghost predicate SortedByOrder(s: seq<Row>)
  {
    forall i, j :: 0 <= i < j < |s| ==> s[i].order <= s[j].order
  }

  function InsertByOrder(x: Row, s: seq<Row>): (r: seq<Row>)
    ensures |r| == |s| + 1
    ensures r[0] == if s == [] || x.order <= s[0].order then x else s[0]
  {
    if s == [] then [x]
    else if x.order <= s[0].order then [x] + s
    else [s[0]] + InsertByOrder(x, s[1..])
  }

  lemma {:induction false} InsertSorted(x: Row, s: seq<Row>)
    requires SortedByOrder(s)
    ensures SortedByOrder(InsertByOrder(x, s))
  {
    if s != [] && x.order > s[0].order {
      InsertSorted(x, s[1..]);
      var tail := InsertByOrder(x, s[1..]);
      assert InsertByOrder(x, s) == [s[0]] + tail;
      forall j | 0 <= j < |tail| ensures s[0].order <= tail[j].order {
        assert tail[0].order <= tail[j].order;
      }
    }
  }

  lemma {:induction false} InsertCounts(x: Row, s: seq<Row>)
    ensures multiset(InsertByOrder(x, s)) == multiset(s) + multiset{x}
  {
    if s != [] && x.order > s[0].order {
      InsertCounts(x, s[1..]);
      assert s == [s[0]] + s[1..];
    }
  }

  /** The rows ascending by `card_order`; rows of equal order keep their table order. */
  function SortByOrder(s: seq<Row>): (r: seq<Row>)
    ensures SortedByOrder(r)
    ensures multiset(r) == multiset(s)
  {
    if s == [] then []
    else
      var rest := SortByOrder(s[1..]);
      InsertSorted(s[0], rest);
      InsertCounts(s[0], rest);
      assert s == [s[0]] + s[1..];
      InsertByOrder(s[0], rest)
  }

  /** Whatever a prefix of a sorted sequence leaves behind is no lower than the prefix. */
  lemma SortedPrefixLowest(s: seq<Row>, k: nat)
    requires SortedByOrder(s) && k <= |s|
    ensures multiset(s[..k]) <= multiset(s)
    ensures forall i, y :: 0 <= i < k && y in multiset(s) - multiset(s[..k]) ==> s[i].order <= y.order
  {
    assert s == s[..k] + s[k..];
    assert multiset(s) - multiset(s[..k]) == multiset(s[k..]);
    forall i, y | 0 <= i < k && y in multiset(s[k..]) ensures s[i].order <= y.order {
      var j :| 0 <= j < |s[k..]| && s[k..][j] == y;
      assert s[k + j] == y;
    }
  }

  function Min(a: int, b: int): int { if a <= b then a else b }

  // ---------------------------------------------------------------- queries

  /**
   * DRAW_CARDS: the deck rows of the game, ascending by `card_order`, at most
   * `limit` of them; the lowest orders are taken first. Nothing is changed.
   */
  function DrawCardsQuery(rows: seq<Row>, gameId: int, limit: nat): (r: seq<Row>)
    ensures |r| == Min(limit, |RowsOwnedBy(rows, gameId, DeckOwner)|)
    ensures forall x :: x in r ==> x in rows && x.gameId == gameId && x.owner == DeckOwner
    ensures SortedByOrder(r)
    ensures multiset(r) <= multiset(RowsOwnedBy(rows, gameId, DeckOwner))
    ensures forall i, y :: 0 <= i < |r| && y in multiset(RowsOwnedBy(rows, gameId, DeckOwner)) - multiset(r) ==>
      r[i].order <= y.order
  {
    var deck := RowsOwnedBy(rows, gameId, DeckOwner);
    var sorted := SortByOrder(deck);
    var k := Min(limit, |sorted|);
    SortedPrefixLowest(sorted, k);
    assert |sorted| == |multiset(sorted)| == |multiset(deck)| == |deck|;
    assert SortedByOrder(sorted[..k]) by {
      forall i, j | 0 <= i < j < k ensures sorted[..k][i].order <= sorted[..k][j].order {
        assert sorted[..k][i] == sorted[i] && sorted[..k][j] == sorted[j];
      }
    }
    forall x | x in sorted[..k] ensures x in rows && x.gameId == gameId && x.owner == DeckOwner {
      assert x in multiset(sorted[..k]);
    }
    sorted[..k]
  }

  /** `drawCards`: DRAW_CARDS with the game and limit passed through; `many` fails on an empty result. */
  function DrawCards(rows: seq<Row>, gameId: int, limit: nat): (r: Result<seq<Row>, Error>)
    ensures r.Failure? <==> limit == 0 || RowsOwnedBy(rows, gameId, DeckOwner) == []
    ensures r.Failure? ==> r.error == NoRows
    ensures r.Success? ==> r.value == DrawCardsQuery(rows, gameId, limit) && r.value != []
  {
    var drawn := DrawCardsQuery(rows, gameId, limit);
    if drawn == [] then Failure(NoRows) else Success(drawn)
  }

  function CardOf(catalog: seq<Card>, cardId: int): Option<Card>
  {
    if 1 <= cardId <= |catalog| then Some(catalog[cardId - 1]) else None
  }

  /** PLAYER_HANDS: every row of the game joined with its catalog card, in table order. */
  function PlayerHandsQuery(rows: seq<Row>, catalog: seq<Card>, gameId: int): (r: seq<DisplayCard>)
    ensures forall c :: c in r ==> c.row in rows && c.row.gameId == gameId && CardOf(catalog, c.row.cardId) == Some(c.card)
    ensures forall x :: x in rows && x.gameId == gameId && CardOf(catalog, x.cardId).Some? ==>
      DisplayCard(x, CardOf(catalog, x.cardId).value) in r
  {
    if rows == [] then []
    else
      var x := rows[0];
      var rest := PlayerHandsQuery(rows[1..], catalog, gameId);
      assert forall y :: y in rows ==> y == x || y in rows[1..];
      (if x.gameId == gameId && CardOf(catalog, x.cardId).Some? then [DisplayCard(x, CardOf(catalog, x.cardId).value)] else [])
        + rest
  }

  /** The join does not look at owners: changing them leaves as many joined cards. */
  lemma {:induction false} SameShapeKeepsJoin(a: seq<Row>, b: seq<Row>, catalog: seq<Card>, gameId: int)
    requires SameShape(a, b)
    ensures |PlayerHandsQuery(a, catalog, gameId)| == |PlayerHandsQuery(b, catalog, gameId)|
  {
    if a != [] {
      assert SameShape(a[1..], b[1..]) by {
        forall i | 0 <= i < |a[1..]| ensures b[1..][i] == a[1..][i].(owner := b[1..][i].owner) {
          assert b[1..][i] == b[i + 1] && a[1..][i] == a[i + 1];
        }
      }
      SameShapeKeepsJoin(a[1..], b[1..], catalog, gameId);
      assert b[0] == a[0].(owner := b[0].owner);
    }
  }

  /** The joined cards owned by `owner`, in their original relative order. */
  function OwnedBy(cards: seq<DisplayCard>, owner: int): (r: seq<DisplayCard>)
    ensures forall c :: c in r ==> c in cards && c.row.owner == owner
  {
    if cards == [] then []
    else
      var last := cards[|cards| - 1];
      OwnedBy(cards[..|cards| - 1], owner) + (if last.row.owner == owner then [last] else [])
  }

  /** Every card appears in the list of its owner exactly as often as in the query result. */
  lemma {:induction false} OwnedByCounts(cards: seq<DisplayCard>, owner: int)
    ensures forall c :: multiset(OwnedBy(cards, owner))[c] == if c.row.owner == owner then multiset(cards)[c] else 0
  {
    if cards != [] {
      var init := cards[..|cards| - 1];
      OwnedByCounts(init, owner);
      assert cards == init + [cards[|cards| - 1]];
    }
  }

  /** TOP_DISCARD: every discard-pile row of the game with its card; no order is imposed beyond the table's. */
  function TopDiscard(rows: seq<Row>, catalog: seq<Card>, gameId: int): (r: seq<DisplayCard>)
    ensures forall c :: c in r ==>
      c.row in rows && c.row.gameId == gameId && c.row.owner == DiscardOwner && CardOf(catalog, c.row.cardId) == Some(c.card)
    ensures forall x :: x in rows && x.gameId == gameId && x.owner == DiscardOwner && CardOf(catalog, x.cardId).Some? ==>
      DisplayCard(x, CardOf(catalog, x.cardId).value) in r
  {
    var all := PlayerHandsQuery(rows, catalog, gameId);
    OwnedByCounts(all, DiscardOwner);
    forall x | x in rows && x.gameId == gameId && x.owner == DiscardOwner && CardOf(catalog, x.cardId).Some?
      ensures DisplayCard(x, CardOf(catalog, x.cardId).value) in OwnedBy(all, DiscardOwner)
    {
      assert DisplayCard(x, CardOf(catalog, x.cardId).value) in multiset(all);
    }
    OwnedBy(all, DiscardOwner)
  }

  /**
   * TOP_DISCARD keeps table order, so a newly discarded card does not come
   * first: with row 1 (a blue five) on the pile, discarding row 2 (a red
   * seven) still leaves the blue five as the first discard row.
   */
  lemma OlderDiscardStaysFirst()
    ensures var catalog := [Card(Five, Blue), Card(Seven, Red)];
      var rows := [Row(1, 1, 1, DiscardOwner, 1), Row(2, 1, 2, 5, 2)];
      var pile := TopDiscard(MoveToDiscard(rows, 2), catalog, 1);
      |pile| == 2 && pile[0].card == Card(Five, Blue) && pile[1].card == Card(Seven, Red)
  {
    var catalog := [Card(Five, Blue), Card(Seven, Red)];
    var rows := [Row(1, 1, 1, DiscardOwner, 1), Row(2, 1, 2, 5, 2)];
    var moved := MoveToDiscard(rows, 2);
    assert moved == [Row(1, 1, 1, DiscardOwner, 1), Row(2, 1, 2, DiscardOwner, 2)];
    var joined := PlayerHandsQuery(moved, catalog, 1);
    assert moved[1..][1..] == [];
    assert CardOf(catalog, 1) == Some(Card(Five, Blue)) && CardOf(catalog, 2) == Some(Card(Seven, Red));
    assert PlayerHandsQuery(moved[1..][1..], catalog, 1) == [];
    assert PlayerHandsQuery(moved[1..], catalog, 1) == [DisplayCard(moved[1], Card(Seven, Red))];
    assert joined == [DisplayCard(moved[0], Card(Five, Blue)), DisplayCard(moved[1], Card(Seven, Red))];
    assert joined[..1] == [joined[0]] && joined[..1][..0] == [];
    assert OwnedBy(joined[..1], DiscardOwner) == [joined[0]];
    assert OwnedBy(joined, DiscardOwner) == joined;
  }

  /**
   * The reduce of `playerHands`: skips cards whose owner is below 1 (deck and
   * discard pile) and appends every other card to the list under its owner.
   */
  method GroupHands(cards: seq<DisplayCard>) returns (hands: map<int, seq<DisplayCard>>)
    ensures forall u :: u in hands <==> u >= 1 && OwnedBy(cards, u) != []
    ensures forall u :: u in hands ==> hands[u] == OwnedBy(cards, u)
  {
    hands := map[];
    for i := 0 to |cards|
      invariant forall u :: u in hands <==> u >= 1 && OwnedBy(cards[..i], u) != []
      invariant forall u :: u in hands ==> hands[u] == OwnedBy(cards[..i], u)
    {
      var card := cards[i];
      assert cards[..i + 1][..i] == cards[..i];
      if card.row.owner >= 1 {
        var u := card.row.owner;
        hands := hands[u := (if u in hands then hands[u] else []) + [card]];
      }
    }
    assert cards[..|cards|] == cards;
  }

  /** A missing key is read as an empty hand. */
  function HandOf(hands: map<int, seq<DisplayCard>>, userId: int): (r: seq<DisplayCard>)
    ensures userId in hands ==> r == hands[userId]
    ensures r != [] ==> userId in hands
  {
    if userId in hands then hands[userId] else []
  }

  /**
   * `playerHands`: PLAYER_HANDS grouped by owner; `many` fails when the game has
   * no rows at all. Each player's hand is their cards in query order; the deck
   * and the discard pile never appear.
   */
  method PlayerHands(rows: seq<Row>, catalog: seq<Card>, gameId: int) returns (r: Result<map<int, seq<DisplayCard>>, Error>)
    ensures r.Failure? <==> PlayerHandsQuery(rows, catalog, gameId) == []
    ensures r.Failure? ==> r.error == NoRows
    ensures r.Success? ==> forall u :: u in r.value ==> u >= 1
    ensures r.Success? ==> forall u :: HandOf(r.value, u) == if u >= 1 then OwnedBy(PlayerHandsQuery(rows, catalog, gameId), u) else []
  {
    var query := PlayerHandsQuery(rows, catalog, gameId);
    if query == [] {
      return Failure(NoRows);
    }
    var hands := GroupHands(query);
    r := Success(hands);
  }

  /** Filtering by owner distributes over concatenation, so each hand keeps the query's order. */
  lemma {:induction false} OwnedByAppend(a: seq<DisplayCard>, b: seq<DisplayCard>, owner: int)
    ensures OwnedBy(a + b, owner) == OwnedBy(a, owner) + OwnedBy(b, owner)
    decreases |b|
  {
    if b == [] {
      assert a + b == a;
    } else {
      var init := b[..|b| - 1];
      OwnedByAppend(a, init, owner);
      assert (a + b)[..|a + b| - 1] == a + init;
      assert (a + b)[|a + b| - 1] == b[|b| - 1];
    }
  }

  /** Each joined card occurs as often as its row, provided the row is of the game and the card is its catalog card. */
  lemma {:induction false} PlayerHandsQueryCounts(rows: seq<Row>, catalog: seq<Card>, gameId: int)
    ensures forall d :: (multiset(PlayerHandsQuery(rows, catalog, gameId))[d] ==
      if d.row.gameId == gameId && CardOf(catalog, d.row.cardId) == Some(d.card) then multiset(rows)[d.row] else 0)
  {
    if rows != [] {
      PlayerHandsQueryCounts(rows[1..], catalog, gameId);
      assert rows == [rows[0]] + rows[1..];
    }
  }

  /** In a table with unique ids no row occurs twice. */
  lemma {:induction false} UniqueIdsCount(rows: seq<Row>, x: Row)
    requires UniqueIds(rows)
    ensures multiset(rows)[x] <= 1
  {
    if rows != [] {
      var tail := rows[1..];
      assert UniqueIds(tail) by {
        forall i, j | 0 <= i < j < |tail| ensures tail[i].id != tail[j].id {
          assert tail[i] == rows[i + 1] && tail[j] == rows[j + 1];
        }
      }
      UniqueIdsCount(tail, x);
      assert rows == [rows[0]] + tail;
      if rows[0] == x {
        forall k | 0 <= k < |tail| ensures tail[k] != x {
          assert tail[k] == rows[k + 1];
        }
        assert x !in tail;
      }
    }
  }

  /** With unique ids, a row that differs from a table row with the same id is not in the table. */
  lemma OnlyRowWithId(rows: seq<Row>, x: Row, y: Row)
    requires UniqueIds(rows) && x in rows && y.id == x.id && y != x
    ensures y !in rows
  {
  }

  /** Two positions holding the same row make two copies of it. */
  lemma TwoCopies(s: seq<Row>, i: nat, j: nat)
    requires i < j < |s|
    ensures s[i] == s[j] ==> multiset(s)[s[i]] >= 2
  {
    if s[i] == s[j] {
      assert s == s[..j] + s[j..];
      assert s[..j][i] == s[i];
      assert s[j..][0] == s[j];
    }
  }

  /** `map(c => c.card_id)`. */
  function CardIds(rows: seq<Row>): (r: seq<int>)
    ensures |r| == |rows| && forall i :: 0 <= i < |rows| ==> r[i] == rows[i].cardId
  {
    seq(|rows|, i requires 0 <= i < |rows| => rows[i].cardId)
  }

  // ---------------------------------------------------------------- updates

  /**
   * The rows CREATE_DECK inserts: one per catalog card, owned by the deck, ordered by `shuffle`.
   * The serial ids follow catalog order here; `INSERT ... SELECT` leaves the order in which ids
   * are handed out unspecified, so this is one arbitrary choice among many.
   */
  function NewDeck(gameId: int, firstId: int, shuffle: seq<int>): (r: seq<Row>)
    ensures |r| == |shuffle|
  {
    seq(|shuffle|, k requires 0 <= k < |shuffle| => Row(firstId + k, gameId, k + 1, DeckOwner, shuffle[k]))
  }

  /** ROW_NUMBER over a random order numbers the N cards 1..N in some order. */
  ghost predicate IsOrdering(shuffle: seq<int>, n: nat)
  {
    |shuffle| == n
    && (forall k :: 0 <= k < n ==> 1 <= shuffle[k] <= n)
    && (forall i, j :: 0 <= i < j < n ==> shuffle[i] != shuffle[j])
  }

  /**
   * A freshly created deck: every row is the deck's, there is exactly one row per
   * catalog card, so its cards are the catalog's, and `card_order` is a
   * permutation of 1..N.
   */
  lemma NewDeckHoldsCatalog(gameId: int, firstId: int, shuffle: seq<int>, catalog: seq<Card>)
    requires IsOrdering(shuffle, |catalog|)
    ensures RowsOwnedBy(NewDeck(gameId, firstId, shuffle), gameId, DeckOwner) == NewDeck(gameId, firstId, shuffle)
    ensures |NewDeck(gameId, firstId, shuffle)| == |catalog|
    ensures forall i :: 0 <= i < |catalog| ==> CardOf(catalog, NewDeck(gameId, firstId, shuffle)[i].cardId) == Some(catalog[i])
    ensures forall i, j :: 0 <= i < j < |catalog| ==>
      NewDeck(gameId, firstId, shuffle)[i].order != NewDeck(gameId, firstId, shuffle)[j].order
    ensures forall i :: 0 <= i < |catalog| ==>
      NewDeck(gameId, firstId, shuffle)[i].order == shuffle[i] && 1 <= NewDeck(gameId, firstId, shuffle)[i].order <= |catalog|
  {
    AllOwnedBy(NewDeck(gameId, firstId, shuffle), gameId, DeckOwner);
  }

  lemma {:induction false} AllOwnedBy(rows: seq<Row>, gameId: int, owner: int)
    requires forall x :: x in rows ==> x.gameId == gameId && x.owner == owner
    ensures RowsOwnedBy(rows, gameId, owner) == rows
  {
    if rows != [] {
      AllOwnedBy(rows[1..], gameId, owner);
    }
  }

  /** A new deck has each of its rows once. */
  lemma {:induction false} NewDeckCount(gameId: int, firstId: int, shuffle: seq<int>, x: Row)
    ensures multiset(NewDeck(gameId, firstId, shuffle))[x] <= 1
    decreases |shuffle|
  {
    var deck := NewDeck(gameId, firstId, shuffle);
    if shuffle != [] {
      var n := |shuffle| - 1;
      var init := NewDeck(gameId, firstId, shuffle[..n]);
      NewDeckCount(gameId, firstId, shuffle[..n], x);
      assert deck == init + [deck[n]];
      if deck[n] == x {
        forall k | 0 <= k < |init| ensures init[k] != x {
          assert init[k].cardId == k + 1;
        }
        assert x !in init;
      }
    }
  }

  /** In a fresh game every drawn row is a row of the new deck, drawn once. */
  lemma FreshDrawnRow(rows: seq<Row>, gameId: int, firstId: int, shuffle: seq<int>, limit: nat, x: Row)
    requires forall y :: y in rows ==> y.gameId != gameId
    requires x in DrawCardsQuery(rows + NewDeck(gameId, firstId, shuffle), gameId, limit)
    ensures x in NewDeck(gameId, firstId, shuffle)
    ensures multiset(DrawCardsQuery(rows + NewDeck(gameId, firstId, shuffle), gameId, limit))[x] <= 1
  {
    var deck := NewDeck(gameId, firstId, shuffle);
    var all := rows + deck;
    var drawn := DrawCardsQuery(all, gameId, limit);
    assert x in all && x.gameId == gameId && x.owner == DeckOwner;
    assert x !in rows;
    assert multiset(all) == multiset(rows) + multiset(deck);
    RowsOwnedByCounts(all, gameId, DeckOwner);
    NewDeckCount(gameId, firstId, shuffle, x);
    assert multiset(drawn)[x] <= multiset(RowsOwnedBy(all, gameId, DeckOwner))[x];
  }

  /** The rows of a new deck are told apart by their card ids. */
  lemma NewDeckCardIds(gameId: int, firstId: int, shuffle: seq<int>, x: Row, y: Row)
    requires x in NewDeck(gameId, firstId, shuffle) && y in NewDeck(gameId, firstId, shuffle) && x != y
    ensures x.cardId != y.cardId
  {
  }

  /**
   * In a game that had no rows before its deck was created, the cards drawn
   * from the deck are all different cards: no card id is drawn twice.
   */
  lemma FreshDeckDrawsDistinctCards(rows: seq<Row>, gameId: int, firstId: int, shuffle: seq<int>, limit: nat)
    requires forall x :: x in rows ==> x.gameId != gameId
    ensures Distinct(CardIds(DrawCardsQuery(rows + NewDeck(gameId, firstId, shuffle), gameId, limit)))
  {
    var drawn := DrawCardsQuery(rows + NewDeck(gameId, firstId, shuffle), gameId, limit);
    var ids := CardIds(drawn);
    forall i, j | 0 <= i < j < |ids| ensures ids[i] != ids[j] {
      FreshDrawnRow(rows, gameId, firstId, shuffle, limit, drawn[i]);
      FreshDrawnRow(rows, gameId, firstId, shuffle, limit, drawn[j]);
      TwoCopies(drawn, i, j);
      NewDeckCardIds(gameId, firstId, shuffle, drawn[i], drawn[j]);
    }
  }

  /** Setting one row's owner to `owner`: rows of another owner keep their count unless they carry the id. */
  lemma {:induction false} SetOwnerByIdCounts(rows: seq<Row>, id: int, owner: int)
    ensures forall x: Row :: x.owner != owner ==>
      multiset(SetOwnerById(rows, id, owner))[x] == if x.id == id then 0 else multiset(rows)[x]
  {
    if rows != [] {
      SetOwnerByIdCounts(rows[1..], id, owner);
      var updated := SetOwnerById(rows, id, owner);
      assert updated == [updated[0]] + SetOwnerById(rows[1..], id, owner);
      assert rows == [rows[0]] + rows[1..];
    }
  }

  lemma {:induction false} NoRowsOfGame(rows: seq<Row>, gameId: int, owner: int)
    requires forall x :: x in rows ==> x.gameId != gameId
    ensures RowsOwnedBy(rows, gameId, owner) == []
  {
    if rows != [] {
      NoRowsOfGame(rows[1..], gameId, owner);
    }
  }

  /** DEAL_CARDS ($1 user, $2 card ids, $3 game): the rows of the game whose card id is listed now belong to the user. */
  function Deal(rows: seq<Row>, userId: int, cardIds: seq<int>, gameId: int): (r: seq<Row>)
    ensures SameShape(rows, r)
    ensures forall i :: 0 <= i < |rows| && rows[i].gameId == gameId && rows[i].cardId in cardIds ==> r[i].owner == userId
    ensures forall i :: 0 <= i < |rows| && !(rows[i].gameId == gameId && rows[i].cardId in cardIds) ==> r[i] == rows[i]
  {
    seq(|rows|, i requires 0 <= i < |rows| =>
      if rows[i].gameId == gameId && rows[i].cardId in cardIds then rows[i].(owner := userId) else rows[i])
  }

  /** Sets the owner of the row with the given id. */
  function SetOwnerById(rows: seq<Row>, id: int, owner: int): (r: seq<Row>)
    ensures SameShape(rows, r)
    ensures forall i :: 0 <= i < |rows| && rows[i].id == id ==> r[i].owner == owner
    ensures forall i :: 0 <= i < |rows| && rows[i].id != id ==> r[i] == rows[i]
  {
    seq(|rows|, i requires 0 <= i < |rows| => if rows[i].id == id then rows[i].(owner := owner) else rows[i])
  }

  /** INITIAL_DISCARD: the lowest-order deck row of the game, if there is one, moves to the discard pile. */
  function InitialDiscardRows(rows: seq<Row>, gameId: int): (r: seq<Row>)
    ensures SameShape(rows, r)
  {
    var picked := DrawCardsQuery(rows, gameId, 1);
    if picked == [] then rows else SetOwnerById(rows, picked[0].id, DiscardOwner)
  }

  /**
   * With unique row ids INITIAL_DISCARD changes at most one row: an empty deck
   * leaves the table alone, otherwise exactly one deck row of the game whose
   * order is the least in that deck goes to the discard pile.
   */
  lemma InitialDiscardMovesLowest(rows: seq<Row>, gameId: int)
    requires UniqueIds(rows)
    ensures RowsOwnedBy(rows, gameId, DeckOwner) == [] ==> InitialDiscardRows(rows, gameId) == rows
    ensures RowsOwnedBy(rows, gameId, DeckOwner) != [] ==>
      exists j :: 0 <= j < |rows|
        && rows[j].gameId == gameId && rows[j].owner == DeckOwner
        && (forall y :: y in rows && y.gameId == gameId && y.owner == DeckOwner ==> rows[j].order <= y.order)
        && InitialDiscardRows(rows, gameId) == rows[j := rows[j].(owner := DiscardOwner)]
  {
    if RowsOwnedBy(rows, gameId, DeckOwner) != [] {
      var p := LowestDeckRow(rows, gameId);
      var j :| 0 <= j < |rows| && rows[j] == p;
      var moved := rows[j := rows[j].(owner := DiscardOwner)];
      var updated := SetOwnerById(rows, p.id, DiscardOwner);
      forall i | 0 <= i < |rows| ensures updated[i] == moved[i] {
        if i != j {
          assert rows[i].id != rows[j].id;
        }
      }
      assert updated == moved;
    }
  }

  /** The row INITIAL_DISCARD picks: a deck row of the game with the least order. */
  lemma LowestDeckRow(rows: seq<Row>, gameId: int) returns (p: Row)
    requires RowsOwnedBy(rows, gameId, DeckOwner) != []
    ensures DrawCardsQuery(rows, gameId, 1) == [p]
    ensures p in rows && p.gameId == gameId && p.owner == DeckOwner
    ensures forall y :: y in rows && y.gameId == gameId && y.owner == DeckOwner ==> p.order <= y.order
  {
    var deck := RowsOwnedBy(rows, gameId, DeckOwner);
    var picked := DrawCardsQuery(rows, gameId, 1);
    p := picked[0];
    assert picked == [p];
    RowsOwnedByCounts(rows, gameId, DeckOwner);
    forall y | y in rows && y.gameId == gameId && y.owner == DeckOwner ensures p.order <= y.order {
      if y != p {
        assert y in multiset(deck);
        assert y in multiset(deck) - multiset(picked);
      }
    }
  }

  /** Brings a card into play: the row whose id is given joins the discard pile. */
  function MoveToDiscard(rows: seq<Row>, cardId: int): (r: seq<Row>)
    ensures SameShape(rows, r)
    ensures forall i :: 0 <= i < |rows| ==>
      r[i] == if rows[i].id == cardId then rows[i].(owner := DiscardOwner) else rows[i]
  {
    SetOwnerById(rows, cardId, DiscardOwner)
  }

  /** The `game_cards` table and the next value of its serial `id` column. */
  class CardTable {
    var rows: seq<Row>
    var nextId: int

    ghost predicate Valid()
      reads this
    {
      UniqueIds(rows) && 1 <= nextId && forall x :: x in rows ==> x.id < nextId
    }

    constructor ()
      ensures Valid() && rows == [] && nextId == 1
    {
      rows := [];
      nextId := 1;
    }

    /** CREATE_DECK: one deck row per catalog card of the game, numbered by an arbitrary permutation. */
    method CreateDeck(gameId: int, catalog: seq<Card>, shuffle: seq<int>)
      requires Valid() && IsOrdering(shuffle, |catalog|)
      modifies this
      ensures Valid()
      ensures rows == old(rows) + NewDeck(gameId, old(nextId), shuffle)
      ensures nextId == old(nextId) + |catalog|
    {
      var deck := NewDeck(gameId, nextId, shuffle);
      forall x | x in rows + deck ensures x.id < nextId + |catalog| {
        if x in deck {
          var k :| 0 <= k < |deck| && deck[k] == x;
        }
      }
      forall i, j | 0 <= i < j < |rows + deck| ensures (rows + deck)[i].id != (rows + deck)[j].id {
        if j >= |rows| && i < |rows| {
          assert (rows + deck)[i] in rows;
        }
      }
      rows := rows + deck;
      nextId := nextId + |catalog|;
    }

    /** `dealCards(gameId, userId, cardIds)`, which runs DEAL_CARDS with (userId, cardIds, gameId). */
    method DealCards(gameId: int, userId: int, cardIds: seq<int>)
      requires Valid()
      modifies this
      ensures Valid()
      ensures rows == Deal(old(rows), userId, cardIds, gameId) && nextId == old(nextId)
    {
      var updated := Deal(rows, userId, cardIds, gameId);
      SameShapeKeepsIds(rows, updated);
      rows := updated;
    }

    /** `setInitialDiscard`: INITIAL_DISCARD. */
    method InitialDiscard(gameId: int)
      requires Valid()
      modifies this
      ensures Valid()
      ensures rows == InitialDiscardRows(old(rows), gameId) && nextId == old(nextId)
    {
      var updated := InitialDiscardRows(rows, gameId);
      SameShapeKeepsIds(rows, updated);
      rows := updated;
    }

    /** `moveCardToDiscard`, called by the game service but defined nowhere: owner := -1. */
    method MoveCardToDiscard(cardId: int, gameId: int, userId: int)
      requires Valid()
      modifies this
      ensures Valid()
      ensures rows == MoveToDiscard(old(rows), cardId) && nextId == old(nextId)
    {
      var updated := MoveToDiscard(rows, cardId);
      SameShapeKeepsIds(rows, updated);
      rows := updated;
    }
  }
}
