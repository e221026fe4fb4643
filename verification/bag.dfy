/** The 7-bag piece randomiser (`initializePieceQueue`, `getBlock`).
    Each `Math.floor(Math.random() * bag.length)` is a "roll": an index below the
    current bag length. A shuffle consumes one roll per piece; every property here
    holds for every sequence of rolls. */
module Bag {
  import opened Pieces

  /** `Array.from({ length: 7 }, (_, i) => i)`: 0, 1, ..., 6. */
  function AllKinds(): (all: seq<nat>)
    ensures |all| == Kinds
    ensures forall i :: 0 <= i < Kinds ==> all[i] == i
  {
    seq(Kinds, i requires 0 <= i < Kinds => i)
  }
  /** `getBlock` refills the queue when it holds fewer than this many pieces. */
  const LowWater := 6

  /** `rolls[i]` is the index drawn when `n - i` pieces are left in the bag. */
  predicate ValidRolls(rolls: seq<nat>, n: nat) {
    |rolls| == n && forall i :: 0 <= i < n ==> rolls[i] < n - i
  }

  predicate Distinct(s: seq<nat>) {
    forall i, j :: 0 <= i < j < |s| ==> s[i] != s[j]
  }

  /** `bag.splice(k, 1)`: the bag without its k-th entry. */
  function Without(bag: seq<nat>, k: nat): (rest: seq<nat>)
    requires k < |bag|
    ensures |rest| == |bag| - 1
    ensures multiset(bag) == multiset(rest) + multiset{bag[k]}
  {
    assert bag == bag[..k] + [bag[k]] + bag[k + 1..];
    bag[..k] + bag[k + 1..]
  }

  lemma WithoutDistinct(bag: seq<nat>, k: nat)
    requires k < |bag| && Distinct(bag)
    ensures Distinct(Without(bag, k))
  {
    var rest := Without(bag, k);
    forall i, j | 0 <= i < j < |rest| ensures rest[i] != rest[j] {
      var i' := if i < k then i else i + 1;
      var j' := if j < k then j else j + 1;
      assert rest[i] == bag[i'] && rest[j] == bag[j'];
    }
  }

  /** The draining loop: take `bag[roll]` out with `splice` and push it, until the bag is empty. */
  function Shuffle(bag: seq<nat>, rolls: seq<nat>): (out: seq<nat>)
    requires ValidRolls(rolls, |bag|)
    ensures multiset(out) == multiset(bag)
    decreases |bag|
  {
    if |bag| == 0 then []
    else [bag[rolls[0]]] + Shuffle(Without(bag, rolls[0]), rolls[1..])
  }

  /** Different rolls give different orders of a bag of distinct pieces ... */
  lemma {:induction false} ShuffleInjective(bag: seq<nat>, r1: seq<nat>, r2: seq<nat>)
    requires Distinct(bag) && ValidRolls(r1, |bag|) && ValidRolls(r2, |bag|)
    requires Shuffle(bag, r1) == Shuffle(bag, r2)
    ensures r1 == r2
    decreases |bag|
  {
    if |bag| > 0 {
      ShuffleSplit(bag, r1);
      ShuffleSplit(bag, r2);
      var k := r1[0];
      assert r2[0] == k;
      WithoutDistinct(bag, k);
      ShuffleInjective(Without(bag, k), r1[1..], r2[1..]);
      SameHeadTail(r1, r2);
    }
  }

  /** The first roll picks the head; the other rolls shuffle the rest. */
  lemma ShuffleSplit(bag: seq<nat>, rolls: seq<nat>)
    requires |bag| > 0 && ValidRolls(rolls, |bag|)
    ensures ValidRolls(rolls[1..], |bag| - 1)
    ensures Shuffle(bag, rolls)[0] == bag[rolls[0]]
    ensures Shuffle(bag, rolls)[1..] == Shuffle(Without(bag, rolls[0]), rolls[1..])
  {
  }

  lemma HeadTail(s: seq<nat>)
    requires |s| > 0
    ensures [s[0]] + s[1..] == s
  {
  }

  /** Sequences with equal heads and equal tails are equal. */
  lemma SameHeadTail(a: seq<nat>, b: seq<nat>)
    requires |a| > 0 && |b| > 0 && a[0] == b[0] && a[1..] == b[1..]
    ensures a == b
  {
    assert a == [a[0]] + a[1..];
    assert b == [b[0]] + b[1..];
  }

  /** ... and every order of the bag comes from some rolls: with uniform rolls each
      permutation is equally likely. */
  lemma {:induction false} ShuffleOnto(bag: seq<nat>, perm: seq<nat>) returns (rolls: seq<nat>)
    requires multiset(perm) == multiset(bag)
    ensures ValidRolls(rolls, |bag|) && Shuffle(bag, rolls) == perm
    decreases |bag|
  {
    assert |perm| == |bag| by {
      assert |perm| == |multiset(perm)|;
    }
    if |bag| == 0 {
      rolls := [];
    } else {
      assert perm[0] in multiset(bag);
      var k :| 0 <= k < |bag| && bag[k] == perm[0];
      var rest := Without(bag, k);
      TailMultiset(bag, perm, k);
      var tail := ShuffleOnto(rest, perm[1..]);
      rolls := [k] + tail;
      ShuffleCons(bag, k, tail);
      HeadTail(perm);
    }
  }

  /** Rolling `k` first draws `bag[k]`, then shuffles the rest with the remaining rolls. */
  lemma ShuffleCons(bag: seq<nat>, k: nat, tail: seq<nat>)
    requires k < |bag| && ValidRolls(tail, |bag| - 1)
    ensures ValidRolls([k] + tail, |bag|)
    ensures Shuffle(bag, [k] + tail) == [bag[k]] + Shuffle(Without(bag, k), tail)
  {
    var rolls := [k] + tail;
    assert rolls[0] == k && rolls[1..] == tail;
    forall i | 0 < i < |bag| ensures rolls[i] < |bag| - i {
      assert rolls[i] == tail[i - 1];
    }
  }

  /** Taking the same piece off the bag and off one of its orders leaves matching rests. */
  lemma TailMultiset(bag: seq<nat>, perm: seq<nat>, k: nat)
    requires multiset(perm) == multiset(bag) && k < |bag| && |perm| > 0 && bag[k] == perm[0]
    ensures multiset(perm[1..]) == multiset(Without(bag, k))
  {
    var rest := Without(bag, k);
    assert perm == [perm[0]] + perm[1..];
    assert multiset(perm) == multiset{perm[0]} + multiset(perm[1..]);
    MultisetCancel(multiset(perm[1..]), multiset(rest), perm[0]);
  }

  lemma MultisetCancel(a: multiset<nat>, b: multiset<nat>, x: nat)
    requires multiset{x} + a == b + multiset{x}
    ensures a == b
  {
    assert forall v :: a[v] == (multiset{x} + a)[v] - multiset{x}[v];
    assert forall v :: b[v] == (b + multiset{x})[v] - multiset{x}[v];
  }

  /** One whole bag: each of the seven pieces exactly once. */
  predicate IsBag(s: seq<nat>) {
    multiset(s) == multiset(AllKinds())
  }

  /** A concatenation of whole bags. */
  predicate Bags(s: seq<nat>)
    decreases |s|
  {
    |s| == 0 || (|s| >= Kinds && IsBag(s[..Kinds]) && Bags(s[Kinds..]))
  }

  /** A sequence without repeats has each value at most once. */
  lemma {:induction false} DistinctCount(s: seq<nat>)
    ensures Distinct(s) <==> forall v :: multiset(s)[v] <= 1
    decreases |s|
  {
    if |s| > 0 {
      DistinctCount(s[1..]);
      assert s == [s[0]] + s[1..];
      if Distinct(s) {
        assert s[0] !in s[1..];
      }
      if forall v :: multiset(s)[v] <= 1 {
        assert forall v :: multiset(s[1..])[v] <= multiset(s)[v];
        assert s[0] !in multiset(s[1..]);
        forall i, j | 0 <= i < j < |s| ensures s[i] != s[j] {
          if i == 0 {
            assert s[j] in s[1..];
          } else {
            assert s[i] == s[1..][i - 1] && s[j] == s[1..][j - 1];
          }
        }
      }
    }
  }

  /** 0, 1, ..., 6: each piece once. */
  lemma AllKindsFacts()
    ensures Distinct(AllKinds())
  {
  }

  /** A bag has seven different pieces, each in 0..6. */
  lemma BagFacts(b: seq<nat>)
    requires IsBag(b)
    ensures |b| == Kinds && Distinct(b)
    ensures forall i :: 0 <= i < |b| ==> b[i] < Kinds
  {
    assert |b| == |multiset(b)| == |multiset(AllKinds())| == Kinds;
    DistinctCount(AllKinds());
    DistinctCount(b);
    forall i | 0 <= i < |b| ensures b[i] < Kinds {
      assert b[i] in multiset(AllKinds());
    }
  }

  lemma {:induction false} BagsAppend(a: seq<nat>, b: seq<nat>)
    requires Bags(a) && Bags(b)
    ensures Bags(a + b)
    decreases |a|
  {
    if |a| == 0 {
      assert a + b == b;
    } else {
      assert (a + b)[..Kinds] == a[..Kinds];
      assert (a + b)[Kinds..] == a[Kinds..] + b;
      BagsAppend(a[Kinds..], b);
    }
  }

  lemma {:induction false} BagsPrefix(s: seq<nat>, n: nat)
    requires Bags(s) && n % Kinds == 0 && n <= |s|
    ensures Bags(s[..n])
    decreases |s|
  {
    if n > 0 {
      assert s[..n][..Kinds] == s[..Kinds];
      assert s[..n][Kinds..] == s[Kinds..][..n - Kinds];
      BagsPrefix(s[Kinds..], n - Kinds);
    }
  }

  lemma {:induction false} BagsLength(s: seq<nat>)
    requires Bags(s)
    ensures |s| % Kinds == 0
    ensures forall i :: 0 <= i < |s| ==> s[i] < Kinds
    decreases |s|
  {
    if |s| > 0 {
      BagsLength(s[Kinds..]);
      BagFacts(s[..Kinds]);
      forall i | 0 <= i < |s| ensures s[i] < Kinds {
        if i < Kinds {
          assert s[i] == s[..Kinds][i];
        } else {
          assert s[i] == s[Kinds..][i - Kinds];
        }
      }
    }
  }

  /** The j-th group of seven. */
  function Window(s: seq<nat>, j: nat): seq<nat>
    requires Kinds * j + Kinds <= |s|
  {
    s[Kinds * j .. Kinds * j + Kinds]
  }

  /** In a concatenation of bags every aligned group of seven is a bag. */
  lemma {:induction false} BagsWindows(s: seq<nat>)
    requires Bags(s)
    ensures forall j :: 0 <= j < |s| / Kinds ==> IsBag(Window(s, j))
    decreases |s|
  {
    if |s| > 0 {
      BagsLength(s);
      BagsWindows(s[Kinds..]);
      forall j | 0 <= j < |s| / Kinds ensures IsBag(Window(s, j)) {
        if j == 0 {
          assert Window(s, j) == s[..Kinds];
        } else {
          assert Window(s, j) == Window(s[Kinds..], j - 1);
        }
      }
    }
  }

  // ---------------------------------------------------------------------------
  // The queue

  /** `initializePieceQueue`: the pieces other than the first one, shuffled. */
  function InitialQueue(first: nat, rolls: seq<nat>): (queue: seq<nat>)
    requires first < Kinds && ValidRolls(rolls, Kinds - 1)
    ensures multiset([first] + queue) == multiset(AllKinds())
    ensures first !in queue
  {
    AllKindsFacts();
    ShuffleOthers(AllKinds(), first, rolls);
    Shuffle(Without(AllKinds(), first), rolls)
  }

  /** Shuffling a bag of distinct pieces without its k-th entry: with that entry in front,
      the same pieces, and that entry not among them. */
  lemma ShuffleOthers(bag: seq<nat>, k: nat, rolls: seq<nat>)
    requires k < |bag| && Distinct(bag) && ValidRolls(rolls, |bag| - 1)
    ensures var queue := Shuffle(Without(bag, k), rolls);
      multiset([bag[k]] + queue) == multiset(bag) && bag[k] !in queue
  {
    var rest := Without(bag, k);
    var queue := Shuffle(rest, rolls);
    assert multiset([bag[k]] + queue) == multiset{bag[k]} + multiset(queue);
    assert multiset(bag)[bag[k]] <= 1 by {
      DistinctCount(bag);
    }
    assert multiset(queue)[bag[k]] == multiset(rest)[bag[k]] == 0;
  }

  /** `getBlock`: refill with one shuffled bag when fewer than six pieces wait, then take the head. */
  function GetBlock(queue: seq<nat>, rolls: seq<nat>): (r: (nat, seq<nat>))
    requires ValidRolls(rolls, Kinds)
    ensures |queue| >= LowWater ==> [r.0] + r.1 == queue
    ensures |queue| < LowWater ==> multiset([r.0] + r.1) == multiset(queue) + multiset(AllKinds())
    ensures |queue| <= 1 + |r.1|
    ensures |queue| < LowWater ==>
      ([r.0] + r.1)[..|queue|] == queue && IsBag(([r.0] + r.1)[|queue|..])
    ensures |queue| > 0 ==> r.0 == queue[0]
    ensures [r.0] + r.1 == Refill(queue, rolls)
  {
    var filled := Refill(queue, rolls);
    HeadTail(filled);
    assert |queue| > 0 ==> filled[0] == queue[0] by {
      if 0 < |queue| < LowWater {
        assert filled[0] == filled[..|queue|][0];
      }
    }
    (filled[0], filled[1..])
  }

  /** The queue `getBlock` takes its head from: one shuffled bag longer when it was short. */
  function Refill(queue: seq<nat>, rolls: seq<nat>): (filled: seq<nat>)
    requires ValidRolls(rolls, Kinds)
    ensures 0 < |filled| && |queue| <= |filled|
    ensures |queue| >= LowWater ==> filled == queue
    ensures |queue| < LowWater ==> multiset(filled) == multiset(queue) + multiset(AllKinds())
    ensures |queue| < LowWater ==> filled[..|queue|] == queue && IsBag(filled[|queue|..])
    ensures (forall i :: 0 <= i < |queue| ==> queue[i] < Kinds) ==>
      forall i :: 0 <= i < |filled| ==> filled[i] < Kinds
  {
    if |queue| >= LowWater then queue
    else
      var refill := Shuffle(AllKinds(), rolls);
      assert forall i :: 0 <= i < |refill| ==> refill[i] < Kinds by {
        BagFacts(refill);
      }
      assert |refill| == Kinds by {
        BagFacts(refill);
      }
      assert (queue + refill)[..|queue|] == queue && (queue + refill)[|queue|..] == refill;
      queue + refill
  }

  /** With a queue of pieces 0..6, `getBlock` returns a piece 0..6 and leaves such a queue. */
  lemma GetBlockInRange(queue: seq<nat>, rolls: seq<nat>)
    requires ValidRolls(rolls, Kinds)
    requires forall i :: 0 <= i < |queue| ==> queue[i] < Kinds
    ensures GetBlock(queue, rolls).0 < Kinds
    ensures forall i :: 0 <= i < |GetBlock(queue, rolls).1| ==> GetBlock(queue, rolls).1[i] < Kinds
  {
    var filled := Refill(queue, rolls);
    var (head, tail) := GetBlock(queue, rolls);
    assert forall i :: 0 <= i < |tail| ==> tail[i] == filled[i + 1];
  }

  /** The opening queue is the rolls' shuffle of the six other pieces: different rolls
      give different queues, ... */
  lemma InitialQueueInjective(first: nat, r1: seq<nat>, r2: seq<nat>)
    requires first < Kinds && ValidRolls(r1, Kinds - 1) && ValidRolls(r2, Kinds - 1)
    requires InitialQueue(first, r1) == InitialQueue(first, r2)
    ensures r1 == r2
  {
    AllKindsFacts();
    WithoutDistinct(AllKinds(), first);
    ShuffleInjective(Without(AllKinds(), first), r1, r2);
  }

  /** ... and every order of the six other pieces is the queue for some rolls. */
  lemma InitialQueueOnto(first: nat, order: seq<nat>) returns (rolls: seq<nat>)
    requires first < Kinds && multiset([first] + order) == multiset(AllKinds())
    ensures ValidRolls(rolls, Kinds - 1) && InitialQueue(first, rolls) == order
  {
    var others := Without(AllKinds(), first);
    assert AllKinds()[first] == first;
    MultisetCancel(multiset(order), multiset(others), first);
    rolls := ShuffleOnto(others, order);
  }

  /** A refill appends the rolls' shuffle of a whole bag: different rolls give different
      queues, ... */
  lemma RefillInjective(queue: seq<nat>, r1: seq<nat>, r2: seq<nat>)
    requires |queue| < LowWater && ValidRolls(r1, Kinds) && ValidRolls(r2, Kinds)
    requires Refill(queue, r1) == Refill(queue, r2)
    ensures r1 == r2
  {
    var a, b := Shuffle(AllKinds(), r1), Shuffle(AllKinds(), r2);
    assert a == (queue + a)[|queue|..] && b == (queue + b)[|queue|..];
    AllKindsFacts();
    ShuffleInjective(AllKinds(), r1, r2);
  }

  /** ... and every order of a whole bag is the one appended for some rolls. */
  lemma RefillOnto(queue: seq<nat>, order: seq<nat>) returns (rolls: seq<nat>)
    requires |queue| < LowWater && multiset(order) == multiset(AllKinds())
    ensures ValidRolls(rolls, Kinds) && Refill(queue, rolls) == queue + order
  {
    rolls := ShuffleOnto(AllKinds(), order);
  }

  /** The stream of pieces still to come: the current piece, then the queue. */
  function Stream(block: nat, queue: seq<nat>): seq<nat> {
    [block] + queue
  }

  /** The partial bag at the front of a stream. */
  function Pending(s: seq<nat>): seq<nat> {
    s[..|s| % Kinds]
  }

  /** A fair stream: a tail of one bag (distinct pieces), followed by whole bags. */
  predicate Fair(s: seq<nat>) {
    && Distinct(Pending(s))
    && (forall i :: 0 <= i < |s| ==> s[i] < Kinds)
    && Bags(s[|s| % Kinds..])
  }

  lemma InitialFair(first: nat, rolls: seq<nat>)
    requires first < Kinds && ValidRolls(rolls, Kinds - 1)
    ensures Fair(Stream(first, InitialQueue(first, rolls)))
  {
    var s := Stream(first, InitialQueue(first, rolls));
    BagFacts(s);
    assert s[..Kinds] == s && s[Kinds..] == [];
  }

  /** Taking the head of a fair stream leaves a fair stream; the head joins the history. */
  lemma DropHeadFair(history: seq<nat>, s: seq<nat>)
    requires |s| > 0 && Fair(s) && Bags(history + Pending(s))
    ensures Fair(s[1..]) && Bags(history + [s[0]] + Pending(s[1..]))
  {
    if |s| % Kinds > 0 {
      DropHeadPartial(history, s);
    } else {
      DropHeadWhole(history, s);
    }
  }

  /** How the length of a stream modulo seven moves when one piece is taken. */
  lemma ModDrop(n: nat)
    requires n > 0
    ensures n % Kinds > 0 ==> (n - 1) % Kinds == n % Kinds - 1
    ensures n % Kinds == 0 ==> (n - 1) % Kinds == Kinds - 1
  {
    var q := n / Kinds;
    assert n == Kinds * q + n % Kinds;
    if n % Kinds > 0 {
      assert n - 1 == Kinds * q + (n % Kinds - 1);
    } else {
      assert n - 1 == Kinds * (q - 1) + (Kinds - 1);
    }
  }

  lemma DropHeadPartial(history: seq<nat>, s: seq<nat>)
    requires |s| % Kinds > 0 && Fair(s) && Bags(history + Pending(s))
    ensures Fair(s[1..]) && Bags(history + [s[0]] + Pending(s[1..]))
  {
    PartialTailFair(s);
    PendingCons(history, s);
  }

  lemma PendingCons(history: seq<nat>, s: seq<nat>)
    requires |s| % Kinds > 0
    ensures history + [s[0]] + Pending(s[1..]) == history + Pending(s)
  {
    PendingShift(s);
    HeadTail(Pending(s));
  }

  lemma PartialTailFair(s: seq<nat>)
    requires |s| % Kinds > 0 && Fair(s)
    ensures Fair(s[1..])
  {
    var s' := s[1..];
    PendingShift(s);
    DistinctTail(Pending(s));
    forall i | 0 <= i < |s'| ensures s'[i] < Kinds {
      assert s'[i] == s[i + 1];
    }
  }

  /** Dropping the head of a stream with a partial bag in front shortens that partial bag
      and keeps the whole bags behind it. */
  lemma PendingShift(s: seq<nat>)
    requires |s| % Kinds > 0
    ensures Pending(s[1..]) == Pending(s)[1..] && Pending(s)[0] == s[0]
    ensures s[1..][|s[1..]| % Kinds..] == s[|s| % Kinds..]
  {
    ModDrop(|s|);
  }

  lemma DistinctTail(s: seq<nat>)
    requires |s| > 0 && Distinct(s)
    ensures Distinct(s[1..])
  {
    forall i, j | 0 <= i < j < |s| - 1 ensures s[1..][i] != s[1..][j] {
      assert s[1..][i] == s[i + 1] && s[1..][j] == s[j + 1];
    }
  }

  lemma DropHeadWhole(history: seq<nat>, s: seq<nat>)
    requires |s| > 0 && |s| % Kinds == 0 && Fair(s) && Bags(history + Pending(s))
    ensures Fair(s[1..]) && Bags(history + [s[0]] + Pending(s[1..]))
  {
    var first := s[..Kinds];
    assert s[|s| % Kinds..] == s;
    assert IsBag(first) && Bags(s[Kinds..]);
    BagFacts(first);
    var s' := s[1..];
    ModDrop(|s|);
    assert |s'| % Kinds == Kinds - 1;
    assert Pending(s') == first[1..];
    assert s'[Kinds - 1..] == s[Kinds..];
    assert Bags(first) by {
      assert first[..Kinds] == first && first[Kinds..] == [];
    }
    assert history + Pending(s) == history;
    BagsAppend(history, first);
    assert history + [s[0]] + Pending(s') == history + first;
  }

  /** Appending a whole bag keeps a stream fair and leaves its pending part alone. */
  lemma AppendBagFair(s: seq<nat>, bag: seq<nat>)
    requires Fair(s) && IsBag(bag)
    ensures Fair(s + bag) && Pending(s + bag) == Pending(s)
  {
    BagFacts(bag);
    var t := |s| % Kinds;
    var u := s + bag;
    ModBag(|s|);
    assert Pending(u) == Pending(s) by {
      assert u[..t] == s[..t];
    }
    assert Bags(u[t..]) by {
      assert u[t..] == s[t..] + bag;
      assert Bags(bag) by {
        assert bag[..Kinds] == bag && bag[Kinds..] == [];
      }
      BagsAppend(s[t..], bag);
    }
    assert forall i :: 0 <= i < |u| ==> u[i] < Kinds by {
      forall i | 0 <= i < |u| ensures u[i] < Kinds {
        if i >= |s| {
          assert u[i] == bag[i - |s|];
        }
      }
    }
  }

  /** A whole bag leaves the length's remainder alone. */
  lemma ModBag(n: nat)
    ensures (n + Kinds) % Kinds == n % Kinds
  {
  }

  /** Drawing keeps the stream fair, and the piece drawn extends the bags dealt so far:
      `history` followed by the pending partial bag always splits into whole bags. */
  lemma DrawKeepsFair(history: seq<nat>, block: nat, queue: seq<nat>, rolls: seq<nat>)
    requires ValidRolls(rolls, Kinds)
    requires Fair(Stream(block, queue)) && Bags(history + Pending(Stream(block, queue)))
    ensures var (b, q) := GetBlock(queue, rolls);
      Fair(Stream(b, q)) && Bags(history + [block] + Pending(Stream(b, q)))
  {
    var s := Stream(block, queue);
    var (b, q) := GetBlock(queue, rolls);
    assert s[0] == block && s[1..] == queue;
    DropHeadFair(history, s);
    if |queue| < LowWater {
      var refill := Shuffle(AllKinds(), rolls);
      AppendBagFair(queue, refill);
      assert Stream(b, q) == queue + refill;
    } else {
      assert Stream(b, q) == queue;
    }
  }

  /** The pieces dealt: the current one, then one more per `getBlock` call, each call
      with its own rolls. */
  function Deal(block: nat, queue: seq<nat>, schedule: seq<seq<nat>>): (dealt: seq<nat>)
    requires forall i :: 0 <= i < |schedule| ==> ValidRolls(schedule[i], Kinds)
    ensures |dealt| == |schedule| + 1 && dealt[0] == block
    decreases |schedule|
  {
    if |schedule| == 0 then [block]
    else
      var (b, q) := GetBlock(queue, schedule[0]);
      [block] + Deal(b, q, schedule[1..])
  }

  lemma {:induction false} DealFair(history: seq<nat>, block: nat, queue: seq<nat>, schedule: seq<seq<nat>>)
    requires forall i :: 0 <= i < |schedule| ==> ValidRolls(schedule[i], Kinds)
    requires Fair(Stream(block, queue)) && Bags(history + Pending(Stream(block, queue)))
    ensures var d := history + Deal(block, queue, schedule); Bags(d[..|d| / Kinds * Kinds])
    decreases |schedule|
  {
    if |schedule| == 0 {
      assert Deal(block, queue, schedule) == [block];
      CurrentCompletesBags(history, block, queue);
    } else {
      var next := GetBlock(queue, schedule[0]);
      DrawKeepsFair(history, block, queue, schedule[0]);
      DealSplit(history, block, queue, schedule);
      DealFair(history + [block], next.0, next.1, schedule[1..]);
    }
  }

  /** Dealing with a non-empty schedule: the current piece, then the deal after one draw. */
  lemma DealSplit(history: seq<nat>, block: nat, queue: seq<nat>, schedule: seq<seq<nat>>)
    requires |schedule| > 0
    requires forall i :: 0 <= i < |schedule| ==> ValidRolls(schedule[i], Kinds)
    ensures forall i :: 0 <= i < |schedule| - 1 ==> ValidRolls(schedule[1..][i], Kinds)
    ensures var next := GetBlock(queue, schedule[0]);
      history + Deal(block, queue, schedule) == history + [block] + Deal(next.0, next.1, schedule[1..])
  {
    var rest := schedule[1..];
    forall i | 0 <= i < |rest| ensures ValidRolls(rest[i], Kinds) {
      assert rest[i] == schedule[i + 1];
    }
    var next := GetBlock(queue, schedule[0]);
    assert Deal(block, queue, schedule) == [block] + Deal(next.0, next.1, rest);
  }

  /** The history plus the current piece, cut at a multiple of seven, is whole bags. */
  lemma CurrentCompletesBags(history: seq<nat>, block: nat, queue: seq<nat>)
    requires Fair(Stream(block, queue)) && Bags(history + Pending(Stream(block, queue)))
    ensures var d := history + [block]; Bags(d[..|d| / Kinds * Kinds])
  {
    var s := Stream(block, queue);
    var p := history + Pending(s);
    var d := history + [block];
    BagsLength(p);
    var n := |d| / Kinds * Kinds;
    if |s| % Kinds == 0 {
      assert p == history;
      assert n == |history|;
      assert d[..n] == history;
    } else {
      assert Pending(s)[0] == block;
      assert d == p[..|d|];
      assert d[..n] == p[..n];
      BagsPrefix(p, n);
    }
  }

  /** From a new game, whatever the rolls: the pieces dealt, cut into aligned groups of
      seven, are whole bags, each piece exactly once per group. */
  lemma DealtPiecesComeInBags(first: nat, rolls: seq<nat>, schedule: seq<seq<nat>>)
    requires first < Kinds && ValidRolls(rolls, Kinds - 1)
    requires forall i :: 0 <= i < |schedule| ==> ValidRolls(schedule[i], Kinds)
    ensures var d := Deal(first, InitialQueue(first, rolls), schedule);
      forall j :: 0 <= j < |d| / Kinds ==> IsBag(Window(d, j))
  {
    var queue := InitialQueue(first, rolls);
    NewGameFair(first, rolls);
    DealFair([], first, queue, schedule);
    var d := Deal(first, queue, schedule);
    assert [] + d == d;
    WholeWindows(d);
  }

  /** A new game starts from a fair stream with nothing pending. */
  lemma NewGameFair(first: nat, rolls: seq<nat>)
    requires first < Kinds && ValidRolls(rolls, Kinds - 1)
    ensures var s := Stream(first, InitialQueue(first, rolls));
      Fair(s) && Bags([] + Pending(s))
  {
    var s := Stream(first, InitialQueue(first, rolls));
    InitialFair(first, rolls);
    assert |s| == Kinds by {
      assert |multiset(s)| == |multiset(AllKinds())|;
    }
    assert [] + Pending(s) == [];
  }

  /** If the longest whole-bag prefix of `d` is bags, every aligned group of seven is one. */
  lemma WholeWindows(d: seq<nat>)
    requires Bags(d[..|d| / Kinds * Kinds])
    ensures forall j :: 0 <= j < |d| / Kinds ==> IsBag(Window(d, j))
  {
    var n := |d| / Kinds * Kinds;
    BagsWindows(d[..n]);
    assert |d[..n]| / Kinds == |d| / Kinds;
    forall j | 0 <= j < |d| / Kinds ensures IsBag(Window(d, j)) {
      assert Window(d, j) == Window(d[..n], j);
    }
  }
}
