/** Cards of the UNO deck and the legality test for playing one. */
module Cards {

  datatype Option<T> = None | Some(value: T)

  /** The five card colours; `Wild` is the colour of the two wild values. */
  datatype Color = Red | Green | Blue | Yellow | Wild

  /** A colour a non-wild play has to match: every colour but `Wild`. */
  type Suit = c: Color | c != Wild witness Red

  type Digit = n: int | 0 <= n <= 9

  /** A number 0..9 or one of the five action values. */
  datatype Value = Num(n: Digit) | Skip | Reverse | Draw2 | PlainWild | Wild4

  /** `id` stands for the random token the game gives each card; here a natural. */
  datatype Card = Card(id: nat, color: Color, value: Value)

  /** The two seats of a match against the bot. */
  datatype Seat = Player | Bot

  function Other(s: Seat): (o: Seat)
    ensures o != s
  {
    if s == Player then Bot else Player
  }

  predicate IsWildValue(v: Value) {
    v == PlainWild || v == Wild4
  }

  /** A card is wild-coloured exactly when its value is wild or wild-draw-four. */
  predicate WellFormed(c: Card) {
    c.color == Wild <==> IsWildValue(c.value)
  }

  /**
   * May `card` be played on `top` while `currentColor` is the colour to match?
   * The second disjunct of the value test (two equal numbers) is subsumed by
   * the third; both are kept because the game tests them separately.
   */
  predicate CanPlay(card: Card, top: Card, currentColor: Color)
    ensures CanPlay(card, top, currentColor) <==>
      card.color == Wild || card.color == currentColor || card.value == top.value
  {
    || card.color == Wild
    || card.color == currentColor
    || (card.value.Num? && top.value.Num? && card.value.n == top.value.n)
    || card.value == top.value
  }

  /** Index of the first card of `hand` that may be played, if any. */
  function FirstPlayable(hand: seq<Card>, top: Card, currentColor: Color): (r: Option<nat>)
    ensures r.Some? ==> r.value < |hand| && CanPlay(hand[r.value], top, currentColor)
    ensures r.Some? ==> forall k :: 0 <= k < r.value ==> !CanPlay(hand[k], top, currentColor)
    ensures r.None? <==> forall k :: 0 <= k < |hand| ==> !CanPlay(hand[k], top, currentColor)
  {
    if hand == [] then None
    else if CanPlay(hand[0], top, currentColor) then Some(0)
    else match FirstPlayable(hand[1..], top, currentColor)
      case None => None
      case Some(i) => Some(i + 1)
  }

  /** The hand with every card carrying identifier `id` filtered out, the other cards in their order. */
  function RemoveId(hand: seq<Card>, id: nat): (r: seq<Card>)
    ensures |r| <= |hand|
  {
    if hand == [] then []
    else (if hand[0].id == id then [] else [hand[0]]) + RemoveId(hand[1..], id)
  }

  /** The filtered hand holds exactly the cards of the hand whose identifier differs from `id`. */
  lemma {:induction false} RemoveIdMembers(hand: seq<Card>, id: nat)
    ensures forall c :: c in RemoveId(hand, id) <==> c in hand && c.id != id
  {
    if hand != [] {
      RemoveIdMembers(hand[1..], id);
      assert hand == [hand[0]] + hand[1..];
    }
  }

  /** Some card of `d` is not wild-coloured. */
  ghost predicate HasPlain(d: seq<Card>) {
    exists i :: 0 <= i < |d| && d[i].color != Wild
  }

  /** No two positions of `s` hold cards with the same identifier. */
  ghost predicate UniqueIds(s: seq<Card>) {
    forall i, j :: 0 <= i < j < |s| ==> s[i].id != s[j].id
  }

  /** Filtering a hand with unique identifiers by the id of one of its cards removes that card only. */
  lemma {:induction false} RemoveIdOne(hand: seq<Card>, card: Card)
    requires UniqueIds(hand) && card in hand
    ensures multiset(RemoveId(hand, card.id)) == multiset(hand) - multiset{card}
    ensures |RemoveId(hand, card.id)| == |hand| - 1
  {
    assert hand == [hand[0]] + hand[1..];
    if hand[0] == card {
      RemoveIdAbsent(hand[1..], card.id);
    } else {
      assert hand[0].id != card.id by {
        var j :| 0 <= j < |hand| && hand[j] == card;
        assert j != 0;
      }
      assert UniqueIds(hand[1..]) by {
        forall i, j | 0 <= i < j < |hand[1..]| ensures hand[1..][i].id != hand[1..][j].id {
          assert hand[1..][i] == hand[i + 1] && hand[1..][j] == hand[j + 1];
        }
      }
      RemoveIdOne(hand[1..], card);
    }
  }

  /** Filtering a concatenation filters each part. */
  lemma {:induction false} RemoveIdAppend(a: seq<Card>, b: seq<Card>, id: nat)
    ensures RemoveId(a + b, id) == RemoveId(a, id) + RemoveId(b, id)
  {
    if a == [] {
      assert a + b == b;
    } else {
      var head := if a[0].id == id then [] else [a[0]];
      assert (a + b)[0] == a[0] && (a + b)[1..] == a[1..] + b;
      RemoveIdAppend(a[1..], b, id);
      assert RemoveId(a + b, id) == head + RemoveId(a[1..] + b, id);
      assert RemoveId(a, id) == head + RemoveId(a[1..], id);
    }
  }

  /**
   * Filtering a hand with unique identifiers by the id of one of its cards cuts that
   * card out where it stands: the cards before and after it keep their order.
   */
  lemma {:induction false} RemoveIdInOrder(hand: seq<Card>, card: Card)
    requires UniqueIds(hand) && card in hand
    ensures exists p :: 0 <= p < |hand| && hand[p] == card && RemoveId(hand, card.id) == hand[..p] + hand[p + 1..]
  {
    var p :| 0 <= p < |hand| && hand[p] == card;
    var before, after := hand[..p], hand[p + 1..];
    assert hand == before + [card] + after;
    forall k | 0 <= k < |before| ensures before[k].id != card.id {
      assert before[k] == hand[k];
    }
    forall k | 0 <= k < |after| ensures after[k].id != card.id {
      assert after[k] == hand[p + 1 + k];
    }
    RemoveIdCut(before, card, after);
  }

  /** Filtering out the id of the one card between two runs of other ids leaves both runs, in order. */
  lemma {:induction false} RemoveIdCut(before: seq<Card>, card: Card, after: seq<Card>)
    requires forall k :: 0 <= k < |before| ==> before[k].id != card.id
    requires forall k :: 0 <= k < |after| ==> after[k].id != card.id
    ensures RemoveId(before + [card] + after, card.id) == before + after
  {
    var id := card.id;
    RemoveIdAbsent(before, id);
    RemoveIdAbsent(after, id);
    RemoveIdAppend(before + [card], after, id);
    RemoveIdAppend(before, [card], id);
    RemoveIdSingle(card);
    calc {
      RemoveId(before + [card] + after, id);
      RemoveId(before + [card], id) + RemoveId(after, id);
      RemoveId(before, id) + RemoveId([card], id) + RemoveId(after, id);
      before + [] + after;
    }
  }

  /** Filtering a single card by its own identifier leaves nothing. */
  lemma {:induction false} RemoveIdSingle(card: Card)
    ensures RemoveId([card], card.id) == []
  {
    assert [card][1..] == [];
  }

  /** Filtering by an identifier no card carries changes nothing. */
  lemma {:induction false} RemoveIdAbsent(hand: seq<Card>, id: nat)
    requires forall k :: 0 <= k < |hand| ==> hand[k].id != id
    ensures RemoveId(hand, id) == hand
  {
    if hand != [] {
      RemoveIdAbsent(hand[1..], id);
    }
  }

  /** Slices keep identifiers unique. */
  lemma UniqueIdsSlice(s: seq<Card>, lo: nat, hi: nat)
    requires UniqueIds(s) && lo <= hi <= |s|
    ensures UniqueIds(s[lo..hi])
  {
    forall i, j | 0 <= i < j < hi - lo ensures s[lo..hi][i].id != s[lo..hi][j].id {
      assert s[lo..hi][i] == s[lo + i] && s[lo..hi][j] == s[lo + j];
    }
  }

  /** A value occurring at least twice occurs at two distinct positions. */
  lemma {:induction false} TwoPositions(t: seq<Card>, x: Card)
    requires multiset(t)[x] >= 2
    ensures exists p, q :: 0 <= p < q < |t| && t[p] == x && t[q] == x
  {
    assert t == [t[0]] + t[1..];
    if t[0] == x {
      assert x in multiset(t[1..]);
      var q :| 0 <= q < |t[1..]| && t[1..][q] == x;
      assert t[q + 1] == x;
    } else {
      TwoPositions(t[1..], x);
      var p, q :| 0 <= p < q < |t[1..]| && t[1..][p] == x && t[1..][q] == x;
      assert t[p + 1] == x && t[q + 1] == x;
    }
  }

  /** Rearranging cards keeps their identifiers unique. */
  lemma PermutationKeepsUniqueIds(s: seq<Card>, t: seq<Card>)
    requires multiset(s) == multiset(t) && UniqueIds(t)
    ensures UniqueIds(s)
  {
    forall i, j | 0 <= i < j < |s| ensures s[i].id != s[j].id {
      if s[i] == s[j] {
        // the card would occur twice in `t`, at two positions with one id
        assert s == s[..j] + s[j..];
        assert s[i] in s[..j] && s[j] in s[j..];
        assert multiset(s)[s[i]] == multiset(s[..j])[s[i]] + multiset(s[j..])[s[i]];
        TwoPositions(t, s[i]);
      } else {
        // two different cards of `t`, at two different positions
        assert s[i] in multiset(t) && s[j] in multiset(t);
        var p :| 0 <= p < |t| && t[p] == s[i];
        var q :| 0 <= q < |t| && t[q] == s[j];
      }
    }
  }
}
