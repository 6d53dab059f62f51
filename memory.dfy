/**
 * Memory, a pair-matching card game. A deck holds two copies of each of `Pairs(d)` icons drawn
 * from a pool of 36, shuffled; the player turns cards over two at a time. Two equal icons stay
 * face up as a matched pair; two different icons are turned back after a short delay, during
 * which the board ignores clicks. Matching every card wins.
 *
 * Every icon of the pool is a single Unicode code point, so an icon is a `char`. The pool is
 * reordered by every shuffle and keeps that order for the next game.
 */
module Memory {

  import opened Wrappers

  datatype Difficulty = Easy | Medium | Hard

  type Icon = char

  const IconCount: int := 36

  /** The i-th icon of `iconsPool` in its listed order (0 to 35). */
  function Glyph(i: int): Icon {
    match i
    case 0 => '🍎'
    case 1 => '🍌'
    case 2 => '🍒'
    case 3 => '🍇'
    case 4 => '🍉'
    case 5 => '🥝'
    case 6 => '🍍'
    case 7 => '🥥'
    case 8 => '🥕'
    case 9 => '🍓'
    case 10 => '🍑'
    case 11 => '🥭'
    case 12 => '🥦'
    case 13 => '🥔'
    case 14 => '🥬'
    case 15 => '🍋'
    case 16 => '🥑'
    case 17 => '🍈'
    case 18 => '🍐'
    case 19 => '🍊'
    case 20 => '🥜'
    case 21 => '🌽'
    case 22 => '🍆'
    case 23 => '🍄'
    case 24 => '🧄'
    case 25 => '🧅'
    case 26 => '🍔'
    case 27 => '🍟'
    case 28 => '🍕'
    case 29 => '🍩'
    case 30 => '🍪'
    case 31 => '🍫'
    case 32 => '🍿'
    case 33 => '🍵'
    case 34 => '🥤'
    case 35 => '🍗'
    case _ => ' '
  }

  /** The position of an icon in the listed pool, or -1 for any other character. */
  function IconIndex(c: Icon): int {
    if c == '🍎' then 0
    else if c == '🍌' then 1
    else if c == '🍒' then 2
    else if c == '🍇' then 3
    else if c == '🍉' then 4
    else if c == '🥝' then 5
    else if c == '🍍' then 6
    else if c == '🥥' then 7
    else if c == '🥕' then 8
    else if c == '🍓' then 9
    else if c == '🍑' then 10
    else if c == '🥭' then 11
    else if c == '🥦' then 12
    else if c == '🥔' then 13
    else if c == '🥬' then 14
    else if c == '🍋' then 15
    else if c == '🥑' then 16
    else if c == '🍈' then 17
    else if c == '🍐' then 18
    else if c == '🍊' then 19
    else if c == '🥜' then 20
    else if c == '🌽' then 21
    else if c == '🍆' then 22
    else if c == '🍄' then 23
    else if c == '🧄' then 24
    else if c == '🧅' then 25
    else if c == '🍔' then 26
    else if c == '🍟' then 27
    else if c == '🍕' then 28
    else if c == '🍩' then 29
    else if c == '🍪' then 30
    else if c == '🍫' then 31
    else if c == '🍿' then 32
    else if c == '🍵' then 33
    else if c == '🥤' then 34
    else if c == '🍗' then 35
    else -1
  }

  /** Looking the i-th icon of the pool up gives back i. */
  lemma IconIndexInverts(i: int)
    requires 0 <= i < IconCount
    ensures IconIndex(Glyph(i)) == i
  {
  }

  /** The icons of the pool are pairwise different. */
  lemma GlyphsDistinct(i: int, j: int)
    requires 0 <= i < IconCount && 0 <= j < IconCount && i != j
    ensures Glyph(i) != Glyph(j)
  {
    IconIndexInverts(i);
    IconIndexInverts(j);
  }

  /** The icon pool in its initial order: 36 icons, no two alike. */
  function AllIcons(): (r: seq<Icon>)
    ensures |r| == IconCount && Distinct(r)
    ensures forall i | 0 <= i < IconCount :: r[i] == Glyph(i)
  {
    var pool := seq(IconCount, i => Glyph(i));
    assert Distinct(pool) by {
      forall i, j | 0 <= i < j < IconCount
        ensures pool[i] != pool[j]
      {
        GlyphsDistinct(i, j);
      }
    }
    pool
  }

  /** The number of pairs of each difficulty. */
  function Pairs(d: Difficulty): nat {
    match d
    case Easy => 8
    case Medium => 18
    case Hard => 32
  }

  /** The number of cards on a side of the square grid. */
  function GridSize(d: Difficulty): nat {
    match d
    case Easy => 4
    case Medium => 6
    case Hard => 8
  }

  /** The deck fills the square grid exactly, and the pool has enough icons for it. */
  lemma LayoutFits(d: Difficulty)
    ensures 2 * Pairs(d) == GridSize(d) * GridSize(d)
    ensures Pairs(d) <= IconCount
  {
  }

  predicate Distinct<T(==)>(s: seq<T>) {
    forall i, j | 0 <= i < j < |s| :: s[i] != s[j]
  }

  /** Every value occurs at most once in a sequence without repetitions. */
  lemma {:induction false} DistinctCounts<T>(s: seq<T>, x: T)
    requires Distinct(s)
    ensures multiset(s)[x] <= 1
  {
    if |s| > 0 {
      assert s == [s[0]] + s[1..];
      assert multiset(s) == multiset([s[0]]) + multiset(s[1..]);
      assert Distinct(s[1..]);
      DistinctCounts(s[1..], x);
      if x == s[0] {
        assert x !in s[1..];
      }
    }
  }

  /** Each icon of the deck appears in it exactly twice. */
  ghost predicate PairedDeck(cards: seq<Icon>) {
    forall i | 0 <= i < |cards| :: multiset(cards)[cards[i]] == 2
  }

  /** Two copies of a selection of distinct icons, in any order, make a paired deck. */
  lemma DoubledIsPaired(chosen: seq<Icon>, cards: seq<Icon>)
    requires Distinct(chosen) && multiset(cards) == multiset(chosen + chosen)
    ensures PairedDeck(cards)
  {
    forall i | 0 <= i < |cards|
      ensures multiset(cards)[cards[i]] == 2
    {
      var x := cards[i];
      assert x in multiset(cards);
      DistinctCounts(chosen, x);
      assert multiset(chosen + chosen) == multiset(chosen) + multiset(chosen);
    }
  }

  /** A selection taken from the front of a permuted pool has no repeated icon. */
  lemma PrefixOfPoolDistinct(pool: seq<Icon>, k: int)
    requires multiset(pool) == multiset(AllIcons()) && 0 <= k <= |pool|
    ensures Distinct(pool[..k])
  {
    assert pool == pool[..k] + pool[k..];
    assert multiset(pool) == multiset(pool[..k]) + multiset(pool[k..]);
    forall i, j | 0 <= i < j < k
      ensures pool[..k][i] != pool[..k][j]
    {
      if pool[i] == pool[j] {
        var x := pool[i];
        var front := pool[..k];
        assert front == front[..i] + [x] + front[i + 1..j] + [x] + front[j + 1..];
        assert multiset(front)[x] >= 2;
        DistinctCounts(AllIcons(), x);
        assert false;
      }
    }
  }

  /** A deck dealt from a permuted pool has the difficulty's size and holds each icon twice. */
  lemma DealIsPaired(pool: seq<Icon>, d: Difficulty, deck: seq<Icon>)
    requires multiset(pool) == multiset(AllIcons()) && |pool| == IconCount
    requires multiset(deck) == multiset(pool[..Pairs(d)] + pool[..Pairs(d)]) && |deck| == 2 * Pairs(d)
    ensures PairedDeck(deck) && |deck| == GridSize(d) * GridSize(d)
  {
    PrefixOfPoolDistinct(pool, Pairs(d));
    DoubledIsPaired(pool[..Pairs(d)], deck);
  }

  /** Each position in `pairs` with an even index starts a pair whose two cards show the same icon. */
  ghost predicate PairsMatch(cards: seq<Icon>, matched: seq<int>)
    requires forall k | 0 <= k < |matched| :: 0 <= matched[k] < |cards|
  {
    |matched| % 2 == 0 &&
    forall k | 0 <= k < |matched| - 1 && k % 2 == 0 :: cards[matched[k]] == cards[matched[k + 1]]
  }

  class Game {
    /** `iconsPool`, reordered in place by every shuffle. */
    var pool: seq<Icon>
    var cards: seq<Icon>
    /** Whether each card shows its icon (its `flipped` class). */
    var faceUp: seq<bool>
    /** The turned cards of the current attempt, by position in the deck. */
    var flipped: seq<int>
    /** The cards of the pairs found so far, two by two. */
    var matched: seq<int>
    var lockBoard: bool
    var currentDifficulty: Option<Difficulty>

    ghost predicate Valid()
      reads this
    {
      && multiset(pool) == multiset(AllIcons()) && |pool| == IconCount
      && PairedDeck(cards)
      && |faceUp| == |cards|
      && (forall k | 0 <= k < |flipped| :: 0 <= flipped[k] < |cards|)
      && (forall k | 0 <= k < |matched| :: 0 <= matched[k] < |cards|)
      && Distinct(flipped + matched)
      && |flipped| <= 2
      && (lockBoard <==> |flipped| == 2)
      && (forall i | 0 <= i < |cards| :: faceUp[i] <==> i in flipped || i in matched)
      && PairsMatch(cards, matched)
      && (currentDifficulty.Some? ==> |cards| == 2 * Pairs(currentDifficulty.value))
    }

    /** The page before a difficulty is chosen: the pool in its listed order, no cards. */
    constructor ()
      ensures Valid() && pool == AllIcons() && cards == [] && currentDifficulty == None
      ensures flipped == [] && matched == [] && !lockBoard
    {
      pool := AllIcons();
      cards := [];
      faceUp := [];
      flipped := [];
      matched := [];
      lockBoard := false;
      currentDifficulty := None;
    }

    /** `shuffle(array)`: some reordering of the elements. */
    static method Shuffle(a: seq<Icon>) returns (r: seq<Icon>)
      ensures multiset(r) == multiset(a) && |r| == |a|
    {
      r :| multiset(r) == multiset(a);
      assert |multiset(r)| == |multiset(a)|;
    }

    /**
     * `startGame(difficulty)`: the pool is shuffled, its first `Pairs(d)` icons are taken twice
     * and shuffled into the deck; every card is face down and nothing is turned or matched.
     */
    method StartGame(d: Difficulty)
      requires Valid()
      modifies this
      ensures Valid() && currentDifficulty == Some(d)
      ensures multiset(pool) == multiset(old(pool))
      ensures multiset(cards) == multiset(pool[..Pairs(d)] + pool[..Pairs(d)])
      ensures |cards| == GridSize(d) * GridSize(d)
      ensures faceUp == seq(|cards|, i => false)
      ensures flipped == [] && matched == [] && !lockBoard
    {
      var pairs := Pairs(d);
      var shuffled := Shuffle(pool);
      var chosen := shuffled[..pairs];
      var deck := Shuffle(chosen + chosen);
      DealIsPaired(shuffled, d, deck);
      pool, cards, faceUp := shuffled, deck, seq(|deck|, i => false);
      currentDifficulty, matched, flipped, lockBoard := Some(d), [], [], false;
    }

    /** `restart()`: a new game of the same difficulty, once one has been chosen. */
    method Restart()
      requires Valid()
      modifies this
      ensures Valid() && currentDifficulty == old(currentDifficulty)
      ensures old(currentDifficulty) == None ==>
        pool == old(pool) && cards == old(cards) && faceUp == old(faceUp) &&
        flipped == old(flipped) && matched == old(matched) && lockBoard == old(lockBoard)
      ensures old(currentDifficulty).Some? ==>
        var d := old(currentDifficulty).value;
        && multiset(cards) == multiset(pool[..Pairs(d)] + pool[..Pairs(d)])
        && faceUp == seq(|cards|, i => false) && flipped == [] && matched == [] && !lockBoard
    {
      if currentDifficulty.Some? {
        StartGame(currentDifficulty.value);
      }
    }

    /** `resetFlipped()`: the attempt is over and the board takes clicks again. */
    method ResetFlipped()
      modifies this
      ensures flipped == [] && !lockBoard
      ensures pool == old(pool) && cards == old(cards) && faceUp == old(faceUp) && matched == old(matched)
      ensures currentDifficulty == old(currentDifficulty)
    {
      flipped := [];
      lockBoard := false;
    }

    /**
     * `checkMatch()` for the two turned cards: equal icons join the matched cards and the attempt
     * ends; different icons stay turned and the board stays locked until `ResolveMismatch`. The
     * result is the win test, every card matched.
     */
    method CheckMatch() returns (won: bool)
      requires Valid() && |flipped| == 2
      modifies this
      ensures Valid()
      ensures pool == old(pool) && cards == old(cards) && faceUp == old(faceUp)
      ensures currentDifficulty == old(currentDifficulty)
      ensures var c1, c2 := old(flipped)[0], old(flipped)[1];
        if cards[c1] == cards[c2]
        then matched == old(matched) + [c1, c2] && flipped == [] && !lockBoard
        else matched == old(matched) && flipped == old(flipped) && lockBoard
      ensures won <==> |matched| == |cards|
    {
      var card1, card2 := flipped[0], flipped[1];
      if cards[card1] == cards[card2] {
        MatchRecorded(cards, flipped, matched);
        assert flipped == [card1, card2];
        matched := matched + flipped;
        ResetFlipped();
        assert flipped + matched == matched;
      }
      won := |matched| == |cards|;
    }

    /** The delayed turn-back after a mismatch: both cards go face down and the attempt ends. */
    method ResolveMismatch()
      requires Valid() && |flipped| == 2
      modifies this
      ensures Valid()
      ensures faceUp == old(faceUp)[old(flipped)[0] := false][old(flipped)[1] := false]
      ensures flipped == [] && !lockBoard
      ensures pool == old(pool) && cards == old(cards) && matched == old(matched)
      ensures currentDifficulty == old(currentDifficulty)
    {
      var card1, card2 := flipped[0], flipped[1];
      DistinctSplit(flipped, matched);
      assert card1 in flipped && card2 in flipped;
      faceUp := faceUp[card1 := false][card2 := false];
      flipped := [];
      lockBoard := false;
      assert flipped + matched == matched;
    }

    /** The first half of `flipCard`: card `i` shows its icon and joins the attempt. */
    method TurnOver(i: int)
      requires Valid() && 0 <= i < |cards| && !lockBoard && !faceUp[i]
      modifies this
      ensures Valid()
      ensures faceUp == old(faceUp)[i := true] && flipped == old(flipped) + [i] && lockBoard == (|flipped| == 2)
      ensures pool == old(pool) && cards == old(cards) && matched == old(matched)
      ensures currentDifficulty == old(currentDifficulty)
    {
      assert i !in flipped && i !in matched;
      DistinctAppend(flipped, matched, i);
      var attempt := flipped + [i];
      assert forall j :: j in attempt <==> j in flipped || j == i;
      faceUp, flipped, lockBoard := faceUp[i := true], attempt, |attempt| == 2;
    }

    /**
     * `flipCard(e)` on card `i`: ignored while the board is locked or when the card already
     * shows its icon; otherwise the card turns over and, as the second card of the attempt,
     * locks the board and is compared with the first. The result is the win test of the
     * comparison, and false when no comparison took place.
     */
    method FlipCard(i: int) returns (won: bool)
      requires Valid() && 0 <= i < |cards|
      modifies this
      ensures Valid()
      ensures pool == old(pool) && cards == old(cards) && currentDifficulty == old(currentDifficulty)
      ensures old(lockBoard) || old(faceUp)[i] ==>
        faceUp == old(faceUp) && flipped == old(flipped) && matched == old(matched) &&
        lockBoard == old(lockBoard) && !won
      ensures !old(lockBoard) && !old(faceUp)[i] ==>
        && faceUp == old(faceUp)[i := true]
        && var attempt := old(flipped) + [i];
           if |attempt| < 2 then flipped == attempt && matched == old(matched) && !lockBoard && !won
           else if cards[attempt[0]] == cards[attempt[1]]
           then matched == old(matched) + attempt && flipped == [] && !lockBoard && (won <==> |matched| == |cards|)
           else matched == old(matched) && flipped == attempt && lockBoard && (won <==> |matched| == |cards|)
    {
      if lockBoard {
        return false;
      }
      if faceUp[i] {
        return false;
      }
      TurnOver(i);
      if |flipped| == 2 {
        won := CheckMatch();
      } else {
        won := false;
      }
    }
  }

  /** Recording a matching pair keeps the matched cards distinct, in range and paired. */
  lemma MatchRecorded(cards: seq<Icon>, flipped: seq<int>, matched: seq<int>)
    requires |flipped| == 2
    requires forall k | 0 <= k < |flipped| :: 0 <= flipped[k] < |cards|
    requires forall k | 0 <= k < |matched| :: 0 <= matched[k] < |cards|
    requires Distinct(flipped + matched) && PairsMatch(cards, matched)
    requires cards[flipped[0]] == cards[flipped[1]]
    ensures forall k | 0 <= k < |matched + flipped| :: 0 <= (matched + flipped)[k] < |cards|
    ensures Distinct(matched + flipped) && PairsMatch(cards, matched + flipped)
    ensures forall i :: i in matched + flipped <==> i in flipped || i in matched
  {
    DistinctSwap(flipped, matched);
    var all := matched + flipped;
    assert all[|matched|] == flipped[0] && all[|matched| + 1] == flipped[1];
  }

  /** Moving a block of a repetition-free sequence to the other end keeps it repetition-free. */
  lemma DistinctSwap<T>(a: seq<T>, b: seq<T>)
    requires Distinct(a + b)
    ensures Distinct(b + a)
  {
    forall i, j | 0 <= i < j < |b + a|
      ensures (b + a)[i] != (b + a)[j]
    {
      var i' := if i < |b| then i + |a| else i - |b|;
      var j' := if j < |b| then j + |a| else j - |b|;
      assert (b + a)[i] == (a + b)[i'] && (b + a)[j] == (a + b)[j'];
    }
  }

  /** An element outside a repetition-free sequence can be added to it after its first block. */
  lemma DistinctAppend<T>(a: seq<T>, b: seq<T>, x: T)
    requires Distinct(a + b) && x !in a && x !in b
    ensures Distinct(a + [x] + b)
  {
    var s := a + [x] + b;
    forall i, j | 0 <= i < j < |s|
      ensures s[i] != s[j]
    {
      if i == |a| {
        assert s[j] in b;
      } else if j == |a| {
        assert s[i] in a;
      } else {
        var i' := if i < |a| then i else i - 1;
        var j' := if j < |a| then j else j - 1;
        assert s[i] == (a + b)[i'] && s[j] == (a + b)[j'];
      }
    }
  }

  /** The two blocks of a repetition-free sequence are repetition-free and have nothing in common. */
  lemma DistinctSplit<T>(a: seq<T>, b: seq<T>)
    requires Distinct(a + b)
    ensures Distinct(a) && Distinct(b)
    ensures forall x | x in a :: x !in b
  {
    forall i, j | 0 <= i < j < |a|
      ensures a[i] != a[j]
    {
      assert a[i] == (a + b)[i] && a[j] == (a + b)[j];
    }
    forall i, j | 0 <= i < j < |b|
      ensures b[i] != b[j]
    {
      assert b[i] == (a + b)[|a| + i] && b[j] == (a + b)[|a| + j];
    }
    forall x | x in a
      ensures x !in b
    {
      var i :| 0 <= i < |a| && a[i] == x;
      forall j | 0 <= j < |b|
        ensures b[j] != x
      {
        assert (a + b)[i] == x && (a + b)[|a| + j] == b[j];
      }
    }
  }

  /**
   * The win test, as many matched cards as cards, holds exactly when every card is matched, and
   * then every card is face up.
   */
  lemma WonIffAllMatched(cards: seq<Icon>, matched: seq<int>, faceUp: seq<bool>, flipped: seq<int>)
    requires |faceUp| == |cards|
    requires forall k | 0 <= k < |matched| :: 0 <= matched[k] < |cards|
    requires Distinct(flipped + matched)
    requires forall i | 0 <= i < |cards| :: faceUp[i] <==> i in flipped || i in matched
    ensures |matched| == |cards| <==> forall i | 0 <= i < |cards| :: i in matched
    ensures |matched| == |cards| ==> forall i | 0 <= i < |cards| :: faceUp[i]
  {
    DistinctSplit(flipped, matched);
    var present := set k | 0 <= k < |matched| :: matched[k];
    DistinctSetSize(matched);
    assert present <= Range(|cards|);
    if forall i | 0 <= i < |cards| :: i in matched {
      assert Range(|cards|) <= present by {
        forall i | i in Range(|cards|)
          ensures i in present
        {
          assert i in matched;
          var k :| 0 <= k < |matched| && matched[k] == i;
        }
      }
      assert present == Range(|cards|);
    } else if |matched| == |cards| {
      Covers(matched, |cards|);
    }
  }

  /** The numbers 0 to n - 1. */
  function Range(n: nat): (r: set<int>)
    ensures |r| == n && forall i :: i in r <==> 0 <= i < n
  {
    if n == 0 then {} else Range(n - 1) + {n - 1}
  }

  /** n distinct values below n are all the values below n. */
  lemma Covers(m: seq<int>, n: nat)
    requires |m| == n && Distinct(m) && forall k | 0 <= k < |m| :: 0 <= m[k] < n
    ensures forall i | 0 <= i < n :: i in m
  {
    var present := set k | 0 <= k < |m| :: m[k];
    DistinctSetSize(m);
    SubsetOfSameSize(present, Range(n));
    forall i | 0 <= i < n
      ensures i in m
    {
      assert i in present;
      var k :| 0 <= k < |m| && m[k] == i;
    }
  }

  /** A subset as large as its superset is all of it. */
  lemma SubsetOfSameSize<T>(a: set<T>, b: set<T>)
    requires a <= b && |a| == |b|
    ensures a == b
  {
    assert b == a + (b - a);
    assert a * (b - a) == {};
    assert |b - a| == 0;
  }

  lemma {:induction false} DistinctSetSize(m: seq<int>)
    requires Distinct(m)
    ensures |set k | 0 <= k < |m| :: m[k]| == |m|
  {
    if |m| > 0 {
      var rest := m[..|m| - 1];
      assert Distinct(rest);
      DistinctSetSize(rest);
      var last := m[|m| - 1];
      assert (set k | 0 <= k < |m| :: m[k]) == (set k | 0 <= k < |rest| :: rest[k]) + {last};
      assert last !in (set k | 0 <= k < |rest| :: rest[k]);
    }
  }
}
