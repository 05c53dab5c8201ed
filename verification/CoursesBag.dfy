/** The seven-bag of Courses: which piece comes at which index of a run. */
module CoursesBag {
  import opened Arcade

  const KINDS: nat := 7

  /** A piece: I, J, L, O, S, T, Z in this order. */
  type Kind = k: nat | k < 7

  function Swap<T>(s: seq<T>, i: nat, j: nat): (t: seq<T>)
    requires i < |s| && j < |s|
    ensures |t| == |s|
  {
    s[i := s[j]][j := s[i]]
  }

  /** The draw behind swap i of bag n, with the wrapping arithmetic of a u32. */
  function DrawOf(draws: Draws, n: u32, i: nat): nat
  {
    draws((n * 16 + i) % U32_LIMIT) % (i + 1)
  }

  /** The bag after the swaps at i, i-1, ..., 1. */
  function Shuffle(draws: Draws, n: u32, bag: seq<Kind>, i: nat): (t: seq<Kind>)
    requires i < |bag|
    ensures |t| == |bag|
    decreases i
  {
    if i == 0 then bag else Shuffle(draws, n, Swap(bag, i, DrawOf(draws, n, i)), i - 1)
  }

  /** A bag before it is shuffled. */
  function Unshuffled(): (bag: seq<Kind>)
    ensures |bag| == KINDS && forall i :: 0 <= i < KINDS ==> bag[i] == i
  {
    [0, 1, 2, 3, 4, 5, 6]
  }

  function BagAt(draws: Draws, n: u32): (bag: seq<Kind>)
    ensures |bag| == KINDS
  {
    var bag := Unshuffled();
    Shuffle(draws, n, bag, |bag| - 1)
  }

  function PieceAt(draws: Draws, index: u32): Kind
  {
    BagAt(draws, index / 7)[index % 7]
  }

  /** The shuffle as the core runs it, on an array and in place. */
  method FillBag(draws: Draws, n: u32) returns (bag: array<Kind>)
    ensures fresh(bag) && bag[..] == BagAt(draws, n)
  {
    bag := new Kind[7] [0, 1, 2, 3, 4, 5, 6];
    assert bag[..] == Unshuffled();
    var i := bag.Length - 1;
    while i > 0
      invariant 0 <= i < bag.Length == KINDS
      invariant Shuffle(draws, n, bag[..], i) == BagAt(draws, n)
    {
      ghost var was := bag[..];
      var j := draws((n * 16 + i) % U32_LIMIT) % (i + 1);
      bag[i], bag[j] := bag[j], bag[i];
      assert bag[..] == Swap(was, i, j);
      i := i - 1;
    }
  }

  method DealPiece(draws: Draws, index: u32) returns (piece: Kind)
    ensures piece == PieceAt(draws, index)
  {
    hide BagAt;
    var bag := FillBag(draws, index / 7);
    piece := bag[index % 7];
  }

  /** Each of the seven kinds, once. */
  predicate IsDeal(bag: seq<Kind>)
  {
    && |bag| == KINDS
    && (forall kind: Kind :: kind in bag)
    && (forall i, j :: 0 <= i < j < |bag| ==> bag[i] != bag[j])
  }

  lemma SwapKeepsDeal(bag: seq<Kind>, i: nat, j: nat)
    requires IsDeal(bag) && i < |bag| && j < |bag|
    ensures IsDeal(Swap(bag, i, j))
  {
    var swapped := Swap(bag, i, j);
    forall kind: Kind ensures kind in swapped {
      assert kind in bag;
      var at :| 0 <= at < |bag| && bag[at] == kind;
      assert swapped[if at == i then j else if at == j then i else at] == kind;
    }
  }

  lemma {:induction false} ShuffleKeepsDeal(draws: Draws, n: u32, bag: seq<Kind>, i: nat)
    requires IsDeal(bag) && i < |bag|
    ensures IsDeal(Shuffle(draws, n, bag, i))
    decreases i
  {
    if i > 0 {
      var j := DrawOf(draws, n, i);
      SwapKeepsDeal(bag, i, j);
      ShuffleKeepsDeal(draws, n, Swap(bag, i, j), i - 1);
    }
  }

  /** Every bag, of every seed, deals each of the seven pieces exactly once. */
  lemma BagIsDeal(draws: Draws, n: u32)
    ensures IsDeal(BagAt(draws, n))
  {
    UnshuffledIsDeal();
    ShuffleKeepsDeal(draws, n, Unshuffled(), |Unshuffled()| - 1);
  }

  lemma PieceOfBlock(draws: Draws, block: nat, r: nat)
    requires r < 7 && 7 * block + 7 <= U32_LIMIT
    ensures PieceAt(draws, 7 * block + r) == BagAt(draws, block)[r]
  {
    assert (7 * block + r) / 7 == block && (7 * block + r) % 7 == r;
  }

  /** Each aligned block of seven indices holds each kind ... */
  lemma BlockDealsEach(draws: Draws, block: nat, kind: Kind) returns (at: nat)
    requires 7 * block + 7 <= U32_LIMIT
    ensures 7 * block <= at < 7 * block + 7 && PieceAt(draws, at) == kind
  {
    BagIsDeal(draws, block);
    assert kind in BagAt(draws, block);
    var r :| 0 <= r < 7 && BagAt(draws, block)[r] == kind;
    PieceOfBlock(draws, block, r);
    at := 7 * block + r;
  }

  /** ... and none of them twice. */
  lemma BlockDealsNoneTwice(draws: Draws, block: nat, r: nat, q: nat)
    requires r < 7 && q < 7 && 7 * block + 7 <= U32_LIMIT
    requires PieceAt(draws, 7 * block + r) == PieceAt(draws, 7 * block + q)
    ensures r == q
  {
    BagIsDeal(draws, block);
    PieceOfBlock(draws, block, r);
    PieceOfBlock(draws, block, q);
  }

  /** No drought: any thirteen consecutive indices of a run hold every kind, so two
      consecutive appearances of a kind are at most thirteen apart. */
  lemma EveryWindowOfThirteen(draws: Draws, start: nat, kind: Kind)
    requires start + 13 <= U32_LIMIT - 7
    ensures exists at :: start <= at < start + 13 && PieceAt(draws, at) == kind
  {
    var at := BlockDealsEach(draws, (start + 6) / 7, kind);
  }

  // ----- every order, and each in one way -----

  /** The place the generator is asked at for swap i of bag n. */
  function KeyOf(n: u32, i: nat): u32
  {
    (16 * n + i) % U32_LIMIT
  }

  lemma DrawIsAt(draws: Draws, n: u32, i: nat)
    ensures DrawOf(draws, n, i) == draws(KeyOf(n, i)) % (i + 1)
  {
  }

  /** No two swaps of a bag ask at one place. */
  lemma KeysDiffer(n: u32, i: nat, k: nat)
    requires k < i < 16
    ensures KeyOf(n, k) != KeyOf(n, i)
  {
    var whole, left := 16 * n / U32_LIMIT, 16 * n % U32_LIMIT;
    assert 16 * n == U32_LIMIT * whole + left && left % 16 == 0;
    assert KeyOf(n, i) == left + i && KeyOf(n, k) == left + k;
  }

  lemma {:induction false} ShuffleLeavesAbove(draws: Draws, n: u32, bag: seq<Kind>, i: nat, k: nat)
    requires i < k < |bag|
    ensures Shuffle(draws, n, bag, i)[k] == bag[k]
    decreases i
  {
    if i > 0 {
      ShuffleLeavesAbove(draws, n, Swap(bag, i, DrawOf(draws, n, i)), i - 1, k);
    }
  }

  /** Swap i settles place i. */
  lemma SwapSettles(draws: Draws, n: u32, bag: seq<Kind>, i: nat)
    requires 0 < i < |bag|
    ensures Shuffle(draws, n, bag, i)[i] == bag[draws(KeyOf(n, i)) % (i + 1)]
  {
    hide DrawOf, KeyOf;
    DrawIsAt(draws, n, i);
    ShuffleLeavesAbove(draws, n, Swap(bag, i, DrawOf(draws, n, i)), i - 1, i);
  }

  /** Two generators choose alike in the first swaps of bag n, counted from the last. */
  predicate SameChoices(draws: Draws, other: Draws, n: u32, i: nat)
  {
    forall k :: 1 <= k <= i ==> draws(KeyOf(n, k)) % (k + 1) == other(KeyOf(n, k)) % (k + 1)
  }

  lemma {:induction false} ShuffleReads(draws: Draws, other: Draws, n: u32, bag: seq<Kind>, i: nat)
    requires i < |bag| && SameChoices(draws, other, n, i)
    ensures Shuffle(draws, n, bag, i) == Shuffle(other, n, bag, i)
    decreases i
  {
    hide DrawOf, KeyOf;
    if i > 0 {
      DrawIsAt(draws, n, i);
      DrawIsAt(other, n, i);
      ShuffleReads(draws, other, n, Swap(bag, i, DrawOf(draws, n, i)), i - 1);
    }
  }

  lemma {:induction false} ShufflesDiffer(draws: Draws, other: Draws, n: u32, bag: seq<Kind>, i: nat, k: nat)
    requires IsDeal(bag) && 1 <= k <= i < |bag| && Shuffle(draws, n, bag, i) == Shuffle(other, n, bag, i)
    ensures draws(KeyOf(n, k)) % (k + 1) == other(KeyOf(n, k)) % (k + 1)
    decreases i
  {
    hide DrawOf, KeyOf;
    DrawIsAt(draws, n, i);
    DrawIsAt(other, n, i);
    SwapSettles(draws, n, bag, i);
    SwapSettles(other, n, bag, i);
    if k < i {
      SwapKeepsDeal(bag, i, DrawOf(draws, n, i));
      ShufflesDiffer(draws, other, n, Swap(bag, i, DrawOf(draws, n, i)), i - 1, k);
    }
  }

  lemma {:induction false} ShuffleReaches(n: u32, bag: seq<Kind>, target: seq<Kind>, i: nat) returns (draws: Draws)
    requires |bag| == |target| == 7 && IsDeal(bag) && IsDeal(target)
    requires i < 7 && bag[i + 1..] == target[i + 1..]
    ensures Shuffle(draws, n, bag, i) == target
    decreases i
  {
    hide Swap, IsDeal;
    var j := PlaceOf(bag, target, i);
    if i == 0 {
      draws := (_: u32) => 0;
      assert bag == [bag[0]] + bag[1..] && target == [target[0]] + target[1..];
    } else {
      hide Shuffle;
      SwapKeepsDeal(bag, i, j);
      SwapAgrees(bag, target, i, j);
      var later := ShuffleReaches(n, Swap(bag, i, j), target, i - 1);
      draws := ChooseFirst(n, bag, i, j, later);
    }
  }

  lemma SwapAgrees(bag: seq<Kind>, target: seq<Kind>, i: nat, j: nat)
    requires |bag| == |target| && j <= i < |bag| && bag[i + 1..] == target[i + 1..] && bag[j] == target[i]
    ensures Swap(bag, i, j)[i..] == target[i..]
  {
    assert Swap(bag, i, j)[i..] == [target[i]] + bag[i + 1..];
    assert target[i..] == [target[i]] + target[i + 1..];
  }

  /** The same draws, but for the one that swap i takes. */
  lemma ChooseFirst(n: u32, bag: seq<Kind>, i: nat, j: nat, later: Draws) returns (draws: Draws)
    requires 0 < i < |bag| && i < 16 && j <= i
    ensures Shuffle(draws, n, bag, i) == Shuffle(later, n, Swap(bag, i, j), i - 1)
  {
    hide DrawOf, KeyOf, Swap, Shuffle;
    draws := (key: u32) => if key == KeyOf(n, i) then j else later(key);
    forall k | 1 <= k < i ensures KeyOf(n, k) != KeyOf(n, i) {
      KeysDiffer(n, i, k);
    }
    ShuffleReads(draws, later, n, Swap(bag, i, j), i - 1);
    DrawIsAt(draws, n, i);
    ShuffleUnfolds(draws, n, bag, i);
  }

  lemma ShuffleUnfolds(draws: Draws, n: u32, bag: seq<Kind>, i: nat)
    requires 0 < i < |bag|
    ensures Shuffle(draws, n, bag, i) == Shuffle(draws, n, Swap(bag, i, DrawOf(draws, n, i)), i - 1)
  {
  }

  /** What belongs at place i is at or below it, if all above it are right. */
  lemma PlaceOf(bag: seq<Kind>, target: seq<Kind>, i: nat) returns (j: nat)
    requires IsDeal(bag) && IsDeal(target) && i < 7 && bag[i + 1..] == target[i + 1..]
    ensures j <= i && bag[j] == target[i]
  {
    assert target[i] in bag;
    j :| 0 <= j < |bag| && bag[j] == target[i];
    assert forall k :: i < k < 7 ==> bag[k] == bag[i + 1..][k - i - 1] == target[k];
  }

  /** The shuffle is fair: every order of the seven kinds comes of some draws, ... */
  lemma EveryOrderComes(n: u32, order: seq<Kind>) returns (draws: Draws)
    requires IsDeal(order)
    ensures BagAt(draws, n) == order
  {
    UnshuffledIsDeal();
    draws := ShuffleReaches(n, Unshuffled(), order, 6);
  }

  /** ... and of one way to take them only: six draws, at 16n + 1 to 16n + 6, the k-th out of
      k + 1. So as many ways to draw as there are orders, and no order is favoured. */
  lemma OrdersComeOneWay(draws: Draws, other: Draws, n: u32)
    ensures BagAt(draws, n) == BagAt(other, n)
       <==> SameChoices(draws, other, n, 6)
  {
    UnshuffledIsDeal();
    if BagAt(draws, n) == BagAt(other, n) {
      forall k | 1 <= k <= 6 ensures draws(KeyOf(n, k)) % (k + 1) == other(KeyOf(n, k)) % (k + 1) {
        ShufflesDiffer(draws, other, n, Unshuffled(), 6, k);
      }
    }
    if SameChoices(draws, other, n, 6) {
      ShuffleReads(draws, other, n, Unshuffled(), 6);
    }
  }

  lemma UnshuffledIsDeal()
    ensures IsDeal(Unshuffled())
  {
    forall kind: Kind ensures kind in Unshuffled() {
      assert Unshuffled()[kind] == kind;
    }
  }
}
