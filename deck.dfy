/** Construction of the 108-card deck and its composition. */
module Deck {
  import opened Cards
  import opened Shuffling

  /** The four suit colours, in the order the deck is built. */
  const Suits: seq<Suit> := [Red, Green, Blue, Yellow]

  /** Position of a colour in `Suits`; 4 for `Wild`. */
  function Rank(c: Color): (r: nat)
    ensures r < |Suits| ==> Suits[r] == c
    ensures r == |Suits| <==> c == Wild
  {
    match c
    case Red => 0
    case Green => 1
    case Blue => 2
    case Yellow => 3
    case Wild => 4
  }

  /** Two cards of colour `c` for each number 1..n, with identifiers from `base` on. */
  function Pairs(c: Suit, base: nat, n: nat): (r: seq<Card>)
    requires n <= 9
    ensures |r| == 2 * n
  {
    if n == 0 then []
    else Pairs(c, base, n - 1) + [Card(base + 2 * (n - 1), c, Num(n)), Card(base + 2 * (n - 1) + 1, c, Num(n))]
  }

  /** Two cards of colour `c` and value `v`, with identifiers `base` and `base + 1`. */
  function Twice(c: Color, base: nat, v: Value): seq<Card> {
    [Card(base, c, v), Card(base + 1, c, v)]
  }

  /** The 25 cards of one suit: one 0, two each of 1..9, two skips, two reverses, two draw-twos. */
  function Block(c: Suit, base: nat): (r: seq<Card>)
    ensures |r| == 25
  {
    [Card(base, c, Num(0))] + Pairs(c, base + 1, 9)
      + Twice(c, base + 19, Skip) + Twice(c, base + 21, Reverse) + Twice(c, base + 23, Draw2)
  }

  /** The blocks of the first `k` suits. */
  function SuitBlocks(k: nat): (r: seq<Card>)
    requires k <= |Suits|
    ensures |r| == 25 * k
  {
    if k == 0 then [] else SuitBlocks(k - 1) + Block(Suits[k - 1], 25 * (k - 1))
  }

  /** `k` wild-coloured cards of value `v`, with identifiers from `base` on. */
  function Wilds(base: nat, k: nat, v: Value): (r: seq<Card>)
    requires IsWildValue(v)
    ensures |r| == k
  {
    if k == 0 then [] else Wilds(base, k - 1, v) + [Card(base + k - 1, Wild, v)]
  }

  /** The unshuffled deck in the order it is built; card `i` carries identifier `i`. */
  function Canonical(): seq<Card> {
    SuitBlocks(4) + Wilds(100, 4, PlainWild) + Wilds(104, 4, Wild4)
  }

  lemma {:induction false} PairsShape(c: Suit, base: nat, n: nat, i: nat)
    requires n <= 9 && i < 2 * n
    ensures Pairs(c, base, n)[i].id == base + i
    ensures Pairs(c, base, n)[i].color == c && Pairs(c, base, n)[i].value.Num?
  {
    if i < 2 * (n - 1) {
      PairsShape(c, base, n - 1, i);
    }
  }

  lemma BlockShape(c: Suit, base: nat, i: nat)
    requires i < 25
    ensures Block(c, base)[i].id == base + i && WellFormed(Block(c, base)[i])
  {
    var b := Block(c, base);
    var zp := [Card(base, c, Num(0))] + Pairs(c, base + 1, 9);
    if 1 <= i < 19 {
      assert b[i] == zp[i] == Pairs(c, base + 1, 9)[i - 1];
      PairsShape(c, base + 1, 9, i - 1);
    }
  }

  lemma {:induction false} SuitBlocksShape(k: nat, i: nat)
    requires k <= |Suits| && i < 25 * k
    ensures SuitBlocks(k)[i].id == i && WellFormed(SuitBlocks(k)[i])
  {
    if i < 25 * (k - 1) {
      SuitBlocksShape(k - 1, i);
    } else {
      BlockShape(Suits[k - 1], 25 * (k - 1), i - 25 * (k - 1));
    }
  }

  lemma {:induction false} WildsAt(base: nat, k: nat, v: Value, i: nat)
    requires IsWildValue(v) && i < k
    ensures Wilds(base, k, v)[i] == Card(base + i, Wild, v)
  {
    if i < k - 1 {
      WildsAt(base, k - 1, v, i);
    }
  }

  /** 108 cards, identifiers equal to positions, every card well formed. */
  lemma CanonicalShape()
    ensures |Canonical()| == 108
    ensures forall i :: 0 <= i < 108 ==> Canonical()[i].id == i && WellFormed(Canonical()[i])
    ensures UniqueIds(Canonical())
  {
    var w1, w2 := Wilds(100, 4, PlainWild), Wilds(104, 4, Wild4);
    forall i | 0 <= i < 108 ensures Canonical()[i].id == i && WellFormed(Canonical()[i]) {
      if i >= 104 {
        assert Canonical()[i] == w2[i - 104];
        WildsAt(104, 4, Wild4, i - 104);
      } else if i >= 100 {
        assert Canonical()[i] == w1[i - 100];
        WildsAt(100, 4, PlainWild, i - 100);
      } else {
        assert Canonical()[i] == SuitBlocks(4)[i];
        SuitBlocksShape(4, i);
      }
    }
  }

  // ---- composition by face ----

  function Faces(s: seq<Card>): (f: seq<(Color, Value)>)
    ensures |f| == |s|
  {
    seq(|s|, i requires 0 <= i < |s| => (s[i].color, s[i].value))
  }

  /** How many cards of `s` have colour `color` and value `value`. */
  function Count(s: seq<Card>, color: Color, value: Value): nat {
    multiset(Faces(s))[(color, value)]
  }

  /** The number of copies of each face a standard deck holds. */
  function Expected(color: Color, value: Value): nat {
    if color == Wild then (if IsWildValue(value) then 4 else 0)
    else SuitCount(value)
  }

  /** The copies of each value in one suit. */
  function SuitCount(value: Value): nat {
    match value
    case Num(n) => if n == 0 then 1 else 2
    case Skip => 2
    case Reverse => 2
    case Draw2 => 2
    case PlainWild => 0
    case Wild4 => 0
  }

  lemma CountAppend(a: seq<Card>, b: seq<Card>, color: Color, value: Value)
    ensures Count(a + b, color, value) == Count(a, color, value) + Count(b, color, value)
  {
    assert Faces(a + b) == Faces(a) + Faces(b);
  }

  /** Counts depend only on the multiset of cards. */
  lemma {:induction false} CountPermutation(s: seq<Card>, t: seq<Card>, color: Color, value: Value)
    requires multiset(s) == multiset(t)
    ensures Count(s, color, value) == Count(t, color, value)
    decreases |s|
  {
    if s != [] {
      var x := s[0];
      assert x in multiset(t);
      var k :| 0 <= k < |t| && t[k] == x;
      var t' := t[..k] + t[k + 1..];
      assert t == t[..k] + [x] + t[k + 1..];
      assert s == [x] + s[1..];
      assert multiset(t) == multiset(t[..k]) + multiset([x]) + multiset(t[k + 1..]);
      assert multiset(s) == multiset([x]) + multiset(s[1..]);
      assert multiset(t') == multiset(t[..k]) + multiset(t[k + 1..]);
      assert multiset(s[1..]) == multiset(s) - multiset{x};
      assert multiset(s[1..]) == multiset(t');
      CountPermutation(s[1..], t', color, value);
      CountAppend([x], s[1..], color, value);
      CountAppend(t[..k] + [x], t[k + 1..], color, value);
      CountAppend(t[..k], [x], color, value);
      CountAppend(t[..k], t[k + 1..], color, value);
    }
  }

  lemma {:induction false} CountPairs(c: Suit, base: nat, n: nat, color: Color, value: Value)
    requires n <= 9
    ensures Count(Pairs(c, base, n), color, value) ==
      if color == c && value.Num? && 1 <= value.n <= n then 2 else 0
  {
    if n > 0 {
      var last := [Card(base + 2 * (n - 1), c, Num(n)), Card(base + 2 * (n - 1) + 1, c, Num(n))];
      CountPairs(c, base, n - 1, color, value);
      CountAppend(Pairs(c, base, n - 1), last, color, value);
      var col: Color := c;
      assert Faces(last) == [(col, Num(n)), (col, Num(n))];
    }
  }

  lemma CountTwice(c: Color, base: nat, v: Value, color: Color, value: Value)
    ensures Count(Twice(c, base, v), color, value) == if color == c && value == v then 2 else 0
  {
    assert Faces(Twice(c, base, v)) == [(c, v), (c, v)];
  }

  lemma CountBlock(c: Suit, base: nat, color: Color, value: Value)
    ensures Count(Block(c, base), color, value) == if color == c then SuitCount(value) else 0
  {
    var zero := [Card(base, c, Num(0))];
    var p := Pairs(c, base + 1, 9);
    var s, r, d := Twice(c, base + 19, Skip), Twice(c, base + 21, Reverse), Twice(c, base + 23, Draw2);
    var col: Color := c;
    assert Faces(zero) == [(col, Num(0))];
    CountPairs(c, base + 1, 9, color, value);
    CountTwice(c, base + 19, Skip, color, value);
    CountTwice(c, base + 21, Reverse, color, value);
    CountTwice(c, base + 23, Draw2, color, value);
    CountAppend(zero, p, color, value);
    CountAppend(zero + p, s, color, value);
    CountAppend(zero + p + s, r, color, value);
    CountAppend(zero + p + s + r, d, color, value);
  }

  lemma {:induction false} CountSuitBlocks(k: nat, color: Color, value: Value)
    requires k <= |Suits|
    ensures Count(SuitBlocks(k), color, value) == if Rank(color) < k then SuitCount(value) else 0
  {
    if k > 0 {
      CountSuitBlocks(k - 1, color, value);
      CountBlock(Suits[k - 1], 25 * (k - 1), color, value);
      CountAppend(SuitBlocks(k - 1), Block(Suits[k - 1], 25 * (k - 1)), color, value);
    }
  }

  lemma {:induction false} CountWilds(base: nat, k: nat, v: Value, color: Color, value: Value)
    requires IsWildValue(v)
    ensures Count(Wilds(base, k, v), color, value) == if color == Wild && value == v then k else 0
  {
    if k > 0 {
      CountWilds(base, k - 1, v, color, value);
      CountAppend(Wilds(base, k - 1, v), [Card(base + k - 1, Wild, v)], color, value);
      assert Faces([Card(base + k - 1, Wild, v)]) == [(Wild, v)];
    }
  }

  /**
   * Per suit one 0, two each of 1..9, two skips, two reverses and two draw-twos;
   * four wilds and four wild-draw-fours; nothing else.
   */
  lemma CanonicalComposition(color: Color, value: Value)
    ensures Count(Canonical(), color, value) == Expected(color, value)
  {
    var w1, w2 := Wilds(100, 4, PlainWild), Wilds(104, 4, Wild4);
    CountSuitBlocks(4, color, value);
    CountWilds(100, 4, PlainWild, color, value);
    CountWilds(104, 4, Wild4, color, value);
    CountAppend(SuitBlocks(4), w1, color, value);
    CountAppend(SuitBlocks(4) + w1, w2, color, value);
  }

  /** Pushes the 25 cards of suit `c`, as the per-colour step of the game's deck builder does. */
  method PushSuit(deck: seq<Card>, c: Suit) returns (r: seq<Card>)
    ensures r == deck + Block(c, |deck|)
  {
    var base := |deck|;
    r := deck + [Card(|deck|, c, Num(0))];
    for n := 1 to 10
      invariant r == deck + [Card(base, c, Num(0))] + Pairs(c, base + 1, n - 1)
    {
      r := r + [Card(|r|, c, Num(n))];
      r := r + [Card(|r|, c, Num(n))];
    }
    r := r + [Card(|r|, c, Skip)];
    r := r + [Card(|r|, c, Skip)];
    r := r + [Card(|r|, c, Reverse)];
    r := r + [Card(|r|, c, Reverse)];
    r := r + [Card(|r|, c, Draw2)];
    r := r + [Card(|r|, c, Draw2)];
  }

  /** Builds the deck as the game does, pushing card after card; `|deck|` plays the fresh identifier. */
  method FreshDeck() returns (deck: seq<Card>)
    ensures deck == Canonical()
  {
    deck := [];
    for ci := 0 to 4
      invariant deck == SuitBlocks(ci)
    {
      deck := PushSuit(deck, Suits[ci]);
    }
    for i := 0 to 4
      invariant deck == SuitBlocks(4) + Wilds(100, i, PlainWild)
    {
      deck := deck + [Card(|deck|, Wild, PlainWild)];
    }
    for i := 0 to 4
      invariant deck == SuitBlocks(4) + Wilds(100, 4, PlainWild) + Wilds(104, i, Wild4)
    {
      deck := deck + [Card(|deck|, Wild, Wild4)];
    }
  }

  /** The deck a match starts from: the built deck, shuffled. */
  method BuildDeck(rng: Rng) returns (deck: seq<Card>)
    ensures deck == Shuffled(Canonical(), rng)
  {
    var built := FreshDeck();
    deck := Shuffle(built, rng);
  }

  /** A shuffled deck has the standard composition and unique identifiers. */
  lemma ShuffledDeck(rng: Rng, color: Color, value: Value)
    ensures |Shuffled(Canonical(), rng)| == 108
    ensures multiset(Shuffled(Canonical(), rng)) == multiset(Canonical())
    ensures Count(Shuffled(Canonical(), rng), color, value) == Expected(color, value)
    ensures UniqueIds(Shuffled(Canonical(), rng))
    ensures HasPlain(Shuffled(Canonical(), rng))
  {
    CanonicalShape();
    ShufflePermutes(Canonical(), rng);
    CountPermutation(Shuffled(Canonical(), rng), Canonical(), color, value);
    CanonicalComposition(color, value);
    PermutationKeepsUniqueIds(Shuffled(Canonical(), rng), Canonical());
    var d := Shuffled(Canonical(), rng);
    CanonicalComposition(Red, Num(0));
    CountPermutation(d, Canonical(), Red, Num(0));
    CountedIsPlain(d);
  }

  /** A deck holding a red zero holds a card that is not wild-coloured. */
  lemma CountedIsPlain(d: seq<Card>)
    requires Count(d, Red, Num(0)) > 0
    ensures HasPlain(d)
  {
    assert (Red, Num(0)) in multiset(Faces(d));
    var i :| 0 <= i < |d| && Faces(d)[i] == (Red, Num(0));
    assert d[i].color != Wild;
  }
}
