/**
 * The UNO card catalog: the `colors` and `symbols` enums and the rows that the
 * catalog migration inserts into the `cards` table.
 */
module Cards {

  /** The `colors` enum, in declaration order. */
  datatype Colour = Blue | Yellow | Green | Red | Black

  /** The `symbols` enum, in declaration order. */
  datatype Symbol =
    | Zero | One | Two | Three | Four | Five | Six | Seven | Eight | Nine
    | Skip | Swap | PlusTwo | PlusFour | Wildcard

  /** One row of the `cards` table (its serial id is its position in the catalog plus one). */
  datatype Card = Card(symbol: Symbol, colour: Colour)

  const AllColours: seq<Colour> := [Blue, Yellow, Green, Red, Black]

  const AllSymbols: seq<Symbol> :=
    [Zero, One, Two, Three, Four, Five, Six, Seven, Eight, Nine, Skip, Swap, PlusTwo, PlusFour, Wildcard]

  /** Position of a symbol in the `symbols` enum. */
  function SymbolIndex(s: Symbol): nat
  {
    match s
    case Zero => 0
    case One => 1
    case Two => 2
    case Three => 3
    case Four => 4
    case Five => 5
    case Six => 6
    case Seven => 7
    case Eight => 8
    case Nine => 9
    case Skip => 10
    case Swap => 11
    case PlusTwo => 12
    case PlusFour => 13
    case Wildcard => 14
  }

  /** The enum labels stored in the database. */
  function ColourName(c: Colour): string
  {
    match c
    case Blue => "blue"
    case Yellow => "yellow"
    case Green => "green"
    case Red => "red"
    case Black => "black"
  }

  function SymbolName(s: Symbol): string
  {
    match s
    case Zero => "zero"
    case One => "one"
    case Two => "two"
    case Three => "three"
    case Four => "four"
    case Five => "five"
    case Six => "six"
    case Seven => "seven"
    case Eight => "eight"
    case Nine => "nine"
    case Skip => "skip"
    case Swap => "swap"
    case PlusTwo => "plus_two"
    case PlusFour => "plus_four"
    case Wildcard => "wildcard"
  }

  /** The two enums are exactly the declared 5 colours and 15 symbols, with distinct labels. */
  lemma EnumsAsDeclared()
    ensures |AllColours| == 5 && |AllSymbols| == 15
    ensures forall c: Colour :: c in AllColours
    ensures forall s: Symbol :: s in AllSymbols
    ensures forall c, d: Colour :: ColourName(c) == ColourName(d) ==> c == d
    ensures forall s, t: Symbol :: SymbolName(s) == SymbolName(t) ==> s == t
  {
    forall c: Colour ensures c in AllColours {
      match c
      case Blue => assert AllColours[0] == c;
      case Yellow => assert AllColours[1] == c;
      case Green => assert AllColours[2] == c;
      case Red => assert AllColours[3] == c;
      case Black => assert AllColours[4] == c;
    }
    forall s: Symbol ensures s in AllSymbols {
      assert AllSymbols[SymbolIndex(s)] == s;
    }
  }

  /** The colours and symbols the migration loops over. */
  const Colours: seq<Colour> := [Blue, Yellow, Green, Red]

  const Symbols: seq<Symbol> :=
    [Zero, One, Two, Three, Four, Five, Six, Seven, Eight, Nine, Skip, Swap, PlusTwo]

  ghost predicate Distinct<T>(s: seq<T>)
  {
    forall i, j :: 0 <= i < j < |s| ==> s[i] != s[j]
  }

  /** Two cards of colour `c` for each symbol of `syms`, in order. */
  function Pairs(syms: seq<Symbol>, c: Colour): (r: seq<Card>)
    ensures |r| == 2 * |syms|
  {
    if syms == [] then []
    else Pairs(syms[..|syms| - 1], c) + [Card(syms[|syms| - 1], c), Card(syms[|syms| - 1], c)]
  }

  /** Over distinct symbols, `Pairs` holds two of each listed symbol in colour `c` and nothing else. */
  lemma {:induction false} PairsCounts(syms: seq<Symbol>, c: Colour)
    requires Distinct(syms)
    ensures forall k :: multiset(Pairs(syms, c))[k] == (if k.colour == c && k.symbol in syms then 2 else 0)
  {
    if syms != [] {
      var rest := syms[..|syms| - 1];
      var s := syms[|syms| - 1];
      assert syms == rest + [s];
      forall i | 0 <= i < |rest| ensures rest[i] != s {
        assert rest[i] == syms[i];
      }
      PairsCounts(rest, c);
      forall k
        ensures multiset(Pairs(syms, c))[k] == (if k.colour == c && k.symbol in syms then 2 else 0)
      {
        calc {
          multiset(Pairs(syms, c))[k];
          multiset(Pairs(rest, c))[k] + multiset([Card(s, c), Card(s, c)])[k];
        }
        assert k.symbol in syms <==> k.symbol in rest || k.symbol == s;
      }
    }
  }

  /** The cards inserted for one colour: a single zero, then two of every symbol after the first. */
  function ColourBlock(c: Colour, syms: seq<Symbol>): seq<Card>
    requires |syms| >= 1
  {
    [Card(Zero, c)] + Pairs(syms[1..], c)
  }

  function ColourBlocks(cs: seq<Colour>, syms: seq<Symbol>): seq<Card>
    requires |syms| >= 1
  {
    if cs == [] then [] else ColourBlocks(cs[..|cs| - 1], syms) + ColourBlock(cs[|cs| - 1], syms)
  }

  /** `k` rounds of one black wildcard and one black plus-four. */
  function Wilds(k: nat): (r: seq<Card>)
    ensures |r| == 2 * k
  {
    if k == 0 then [] else Wilds(k - 1) + [Card(Wildcard, Black), Card(PlusFour, Black)]
  }

  lemma {:induction false} WildsCounts(k: nat)
    ensures forall x :: multiset(Wilds(k))[x] == if x == Card(Wildcard, Black) || x == Card(PlusFour, Black) then k else 0
  {
    if k > 0 {
      WildsCounts(k - 1);
      forall x
        ensures multiset(Wilds(k))[x] == if x == Card(Wildcard, Black) || x == Card(PlusFour, Black) then k else 0
      {
        calc {
          multiset(Wilds(k))[x];
          multiset(Wilds(k - 1))[x] + multiset([Card(Wildcard, Black), Card(PlusFour, Black)])[x];
        }
      }
    }
  }

  /** The contents of the `cards` table, in insertion order. */
  function Catalog(): seq<Card>
  {
    ColourBlocks(Colours, Symbols) + Wilds(4)
  }

  /** How many copies of each (symbol, colour) the catalog is meant to hold. */
  function Expected(k: Card): nat
  {
    if k.colour == Black then
      (if k.symbol == Wildcard || k.symbol == PlusFour then 4 else 0)
    else if k.symbol == Zero then 1
    else if k.symbol == Wildcard || k.symbol == PlusFour then 0
    else 2
  }

  /** How many copies of `k` one colour block of colour `c` holds. */
  function BlockCount(c: Colour, k: Card): nat
  {
    if k.colour != c then 0
    else if k.symbol == Zero then 1
    else if k.symbol == Wildcard || k.symbol == PlusFour then 0
    else 2
  }

  /** The symbols that come twice per colour: every one but zero and the two wild symbols. */
  lemma DoubledSymbols(s: Symbol)
    ensures Distinct(Symbols[1..])
    ensures s in Symbols[1..] <==> s !in {Zero, PlusFour, Wildcard}
  {
    var tail := Symbols[1..];
    assert tail == [One, Two, Three, Four, Five, Six, Seven, Eight, Nine, Skip, Swap, PlusTwo];
    match s
    case Zero =>
    case PlusFour =>
    case Wildcard =>
    case _ => assert tail[SymbolIndex(s) - 1] == s;
  }

  /** A zero followed by pairs of exactly the doubled symbols gives the counts of one colour block. */
  lemma BlockCountsFrom(c: Colour, tail: seq<Symbol>)
    requires Distinct(tail) && |tail| == 12
    requires forall s :: s in tail <==> s !in {Zero, PlusFour, Wildcard}
    ensures |[Card(Zero, c)] + Pairs(tail, c)| == 25
    ensures forall k :: multiset([Card(Zero, c)] + Pairs(tail, c))[k] == BlockCount(c, k)
  {
    var p := Pairs(tail, c);
    PairsCounts(tail, c);
    forall k
      ensures multiset([Card(Zero, c)] + p)[k] == BlockCount(c, k)
    {
      calc {
        multiset([Card(Zero, c)] + p)[k];
        multiset([Card(Zero, c)])[k] + multiset(p)[k];
        (if k == Card(Zero, c) then 1 else 0) + (if k.colour == c && k.symbol in tail then 2 else 0);
      }
    }
  }


  /** The blocks of distinct colours `cs`: each colour block once, nothing of any other colour. */
  lemma {:induction false} ColourBlocksCounts(cs: seq<Colour>, syms: seq<Symbol>)
    requires Distinct(cs) && |syms| == 13
    requires Distinct(syms[1..]) && forall s :: s in syms[1..] <==> s !in {Zero, PlusFour, Wildcard}
    ensures |ColourBlocks(cs, syms)| == 25 * |cs|
    ensures forall k :: multiset(ColourBlocks(cs, syms))[k] == (if k.colour in cs then BlockCount(k.colour, k) else 0)
  {
    if cs != [] {
      var init := cs[..|cs| - 1];
      var last := cs[|cs| - 1];
      assert cs == init + [last];
      forall i | 0 <= i < |init| ensures init[i] != last {
        assert init[i] == cs[i];
      }
      ColourBlocksCounts(init, syms);
      BlockCountsFrom(last, syms[1..]);
      forall k
        ensures multiset(ColourBlocks(cs, syms))[k] == (if k.colour in cs then BlockCount(k.colour, k) else 0)
      {
        assert multiset(ColourBlocks(cs, syms)) == multiset(ColourBlocks(init, syms)) + multiset(ColourBlock(last, syms));
        assert k.colour in cs <==> k.colour in init || k.colour == last;
      }
    }
  }

  /**
   * The catalog holds exactly the expected number of each card: one zero and two
   * of every other coloured symbol per colour, four black wildcards and four black
   * plus-fours, and nothing else -- 108 cards in all.
   */
  lemma CatalogComposition()
    ensures |Catalog()| == 4 * (1 + 24) + 8 == 108
    ensures forall k :: multiset(Catalog())[k] == Expected(k)
  {
    CatalogArguments();
    CatalogFrom(Colours, Symbols);
  }

  /** The colours and symbols the migration loops over meet what `CatalogFrom` asks of them. */
  lemma CatalogArguments()
    ensures Distinct(Colours) && |Colours| == 4 && forall c :: c in Colours <==> c != Black
    ensures |Symbols| == 13
    ensures Distinct(Symbols[1..]) && forall s :: s in Symbols[1..] <==> s !in {Zero, PlusFour, Wildcard}
  {
    assert Distinct(Colours);
    forall c ensures c in Colours <==> c != Black {
      match c
      case Blue => assert Colours[0] == c;
      case Yellow => assert Colours[1] == c;
      case Green => assert Colours[2] == c;
      case Red => assert Colours[3] == c;
      case Black =>
    }
    DoubledSymbols(Zero);
    forall s ensures s in Symbols[1..] <==> s !in {Zero, PlusFour, Wildcard} {
      DoubledSymbols(s);
    }
  }

  /** The coloured blocks of all non-black colours followed by four wild rounds give the expected counts. */
  lemma CatalogFrom(cs: seq<Colour>, syms: seq<Symbol>)
    requires Distinct(cs) && |cs| == 4
    requires forall c :: c in cs <==> c != Black
    requires |syms| == 13
    requires Distinct(syms[1..]) && forall s :: s in syms[1..] <==> s !in {Zero, PlusFour, Wildcard}
    ensures |ColourBlocks(cs, syms) + Wilds(4)| == 108
    ensures forall k :: multiset(ColourBlocks(cs, syms) + Wilds(4))[k] == Expected(k)
  {
    ColourBlocksCounts(cs, syms);
    var b := ColourBlocks(cs, syms);
    var w := Wilds(4);
    WildsCounts(4);
    forall k
      ensures multiset(b + w)[k] == Expected(k)
    {
      assert k.colour in cs <==> k.colour != Black;
      var fromBlocks := if k.colour != Black then BlockCount(k.colour, k) else 0;
      var fromWilds := if k == Card(Wildcard, Black) || k == Card(PlusFour, Black) then 4 else 0;
      assert multiset(b)[k] == fromBlocks;
      assert multiset(w)[k] == fromWilds;
      assert multiset(b + w)[k] == fromBlocks + fromWilds;
    }
  }

  /**
   * A catalog card is black exactly when it is a wildcard or a plus-four; every
   * other card has one of the four playing colours.
   */
  lemma CatalogColours(k: Card)
    requires multiset(Catalog())[k] > 0
    ensures k.colour == Black <==> k.symbol == Wildcard || k.symbol == PlusFour
    ensures k.colour != Black ==> k.colour in {Blue, Yellow, Green, Red}
  {
    CatalogComposition();
    ExpectedColours(k);
  }

  lemma ExpectedColours(k: Card)
    requires Expected(k) > 0
    ensures k.colour == Black <==> k.symbol == Wildcard || k.symbol == PlusFour
    ensures k.colour != Black ==> k.colour in {Blue, Yellow, Green, Red}
  {
  }

  /**
   * The migration's `up`: a zero and two of each remaining symbol for every colour,
   * then four rounds of a wildcard and a plus-four. Returns the inserted rows in order.
   */
  method BuildCatalog() returns (cards: seq<Card>)
    ensures cards == Catalog()
    ensures |cards| == 108
    ensures forall k :: multiset(cards)[k] == Expected(k)
  {
    cards := InsertCards(Colours, Symbols, 4);
    CatalogComposition();
  }

  /** The loops of `up` over the given colour and symbol lists and number of wild rounds. */
  method InsertCards(colours: seq<Colour>, symbols: seq<Symbol>, rounds: nat) returns (cards: seq<Card>)
    requires |symbols| >= 1
    ensures cards == ColourBlocks(colours, symbols) + Wilds(rounds)
  {
    cards := [];
    for i := 0 to |colours|
      invariant cards == ColourBlocks(colours[..i], symbols)
    {
      var colour := colours[i];
      ghost var before := cards;
      cards := cards + [Card(Zero, colour)];
      var rest := symbols[1..];
      ghost var zeroAdded := cards;
      for j := 0 to |rest|
        invariant cards == zeroAdded + Pairs(rest[..j], colour)
      {
        assert rest[..j + 1][..j] == rest[..j];
        assert Pairs(rest[..j + 1], colour) == Pairs(rest[..j], colour) + [Card(rest[j], colour), Card(rest[j], colour)];
        cards := cards + [Card(rest[j], colour)];
        cards := cards + [Card(rest[j], colour)];
      }
      assert rest[..|rest|] == rest;
      assert cards == before + ColourBlock(colour, symbols);
      assert colours[..i + 1][..i] == colours[..i];
      assert ColourBlocks(colours[..i + 1], symbols) == ColourBlocks(colours[..i], symbols) + ColourBlock(colour, symbols);
    }
    assert colours[..|colours|] == colours;
    var wildsStart := cards;
    for k := 0 to rounds
      invariant cards == wildsStart + Wilds(k)
    {
      cards := cards + [Card(Wildcard, Black)];
      cards := cards + [Card(PlusFour, Black)];
    }
  }
}
