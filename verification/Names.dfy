/** Names in the order JavaScript's string comparison gives them, and the one
    sorted list of a set of names. */
module Names {

  type Name = string

  predicate Less(a: Name, b: Name) {
    if b == [] then false
    else if a == [] then true
    else if a[0] != b[0] then a[0] < b[0]
    else Less(a[1..], b[1..])
  }

  predicate AtMost(a: Name, b: Name) {
    a == b || Less(a, b)
  }

  // Names compare character by character; a proper beginning comes before the whole.
  ghost predicate DiffersAt(a: Name, b: Name, k: nat) {
    k <= |a| && k < |b| && a[..k] == b[..k] && (k == |a| || a[k] < b[k])
  }

  lemma {:induction false} LessIff(a: Name, b: Name)
    ensures Less(a, b) <==> exists k: nat :: DiffersAt(a, b, k)
  {
    if a != [] && b != [] && a[0] == b[0] {
      LessIff(a[1..], b[1..]);
      forall k: nat ensures DiffersAt(a, b, k + 1) <==> DiffersAt(a[1..], b[1..], k) {
        DiffersInRest(a, b, k);
      }
      if k: nat :| DiffersAt(a, b, k) {
        assert k > 0 && DiffersAt(a[1..], b[1..], k - 1);
      }
    } else if Less(a, b) {
      assert DiffersAt(a, b, 0);
    } else if k: nat :| DiffersAt(a, b, k) {
      SameStart(a, b, k);
    }
  }

  lemma SameStart(a: Name, b: Name, k: nat)
    requires DiffersAt(a, b, k)
    ensures k > 0 ==> a != [] && b != [] && a[0] == b[0]
  {
    if k > 0 {
      assert a[..k][0] == b[..k][0];
    }
  }

  lemma DiffersInRest(a: Name, b: Name, k: nat)
    requires a != [] && b != [] && a[0] == b[0]
    ensures DiffersAt(a, b, k + 1) <==> DiffersAt(a[1..], b[1..], k)
  {
    if k + 1 <= |a| && k + 1 <= |b| {
      assert a[..k + 1] == [a[0]] + a[1..][..k] && b[..k + 1] == [b[0]] + b[1..][..k];
      assert a[..k + 1][1..] == a[1..][..k] && b[..k + 1][1..] == b[1..][..k];
    }
  }

  lemma {:induction false} LessTransitive(a: Name, b: Name, c: Name)
    requires Less(a, b) && Less(b, c)
    ensures Less(a, c)
  {
    if a != [] && a[0] == b[0] == c[0] {
      LessTransitive(a[1..], b[1..], c[1..]);
    }
  }

  lemma {:induction false} LessIsStrict(a: Name, b: Name)
    ensures !(Less(a, b) && Less(b, a))
    ensures !Less(a, a)
    decreases |a|
  {
    if a != [] {
      LessIsStrict(a[1..], if b != [] then b[1..] else []);
    }
  }

  lemma {:induction false} LessIsTotal(a: Name, b: Name)
    ensures Less(a, b) || Less(b, a) || a == b
  {
    if a != [] && b != [] && a[0] == b[0] {
      LessIsTotal(a[1..], b[1..]);
      assert a == [a[0]] + a[1..] && b == [b[0]] + b[1..];
    }
  }

  // A score and a name: the higher score comes first, equal scores go by name.
  predicate Ranks(score: Name -> nat, a: Name, b: Name) {
    score(a) > score(b) || (score(a) == score(b) && AtMost(a, b))
  }

  lemma RanksIsAntisymmetric(score: Name -> nat, a: Name, b: Name)
    requires Ranks(score, a, b) && Ranks(score, b, a)
    ensures a == b
  {
    LessIsStrict(a, b);
  }

  lemma RanksTransitive(score: Name -> nat, a: Name, b: Name, c: Name)
    requires Ranks(score, a, b) && Ranks(score, b, c)
    ensures Ranks(score, a, c)
  {
    if Less(a, b) && Less(b, c) {
      LessTransitive(a, b, c);
    }
  }

  predicate IsBest(b: Name, s: set<Name>, score: Name -> nat) {
    b in s && forall x | x in s :: Ranks(score, b, x)
  }

  lemma {:induction false} BestExists(s: set<Name>, score: Name -> nat) returns (b: Name)
    requires s != {}
    ensures IsBest(b, s, score)
  {
    b :| b in s;
    var rest := s - {b};
    assert s == rest + {b};
    if rest != {} {
      var a := b;
      var c := BestExists(rest, score);
      LessIsTotal(a, c);
      if Ranks(score, a, c) {
        forall x | x in s ensures Ranks(score, a, x) {
          if x != a { RanksTransitive(score, a, c, x); }
        }
      } else {
        b := c;
      }
    }
  }

  // The first element of a list of distinct names sorted by score, then by name.
  function Best(s: set<Name>, score: Name -> nat): (b: Name)
    requires s != {}
    ensures IsBest(b, s, score)
  {
    assert exists b :: IsBest(b, s, score) by { var b := BestExists(s, score); }
    BestIsUnique(s, score);
    var b :| IsBest(b, s, score);
    b
  }

  lemma BestIsUnique(s: set<Name>, score: Name -> nat)
    ensures forall a, b | IsBest(a, s, score) && IsBest(b, s, score) :: a == b
  {
    forall a, b | IsBest(a, s, score) && IsBest(b, s, score) ensures a == b {
      RanksIsAntisymmetric(score, a, b);
    }
  }

  function Least(s: set<Name>): (m: Name)
    requires s != {}
    ensures m in s && forall x | x in s :: AtMost(m, x)
  {
    var m := Best(s, _ => 0);
    assert forall x | x in s :: Ranks(_ => 0, m, x);
    m
  }

  predicate Increasing(r: seq<Name>) {
    forall i, j | 0 <= i < j < |r| :: Less(r[i], r[j])
  }

  function Elements(r: seq<Name>): set<Name> {
    set x | x in r
  }

  lemma ElementsConcat(a: seq<Name>, b: seq<Name>)
    ensures Elements(a + b) == Elements(a) + Elements(b)
  {
    assert forall x :: x in a + b <==> x in a || x in b;
  }

  lemma IncreasingCons(m: Name, rest: seq<Name>)
    requires Increasing(rest) && m !in Elements(rest) && forall x | x in Elements(rest) :: AtMost(m, x)
    ensures Increasing([m] + rest)
  {
    forall j | 0 <= j < |rest| ensures Less(m, rest[j]) {
      assert rest[j] in Elements(rest);
    }
  }

  // `[...names].sort()` for a set of names.
  function Sort(s: set<Name>): (r: seq<Name>)
    ensures Elements(r) == s
    ensures Increasing(r)
    ensures |r| == |s|
    decreases |s|
  {
    if s == {} then []
    else
      var m := Least(s);
      var rest := Sort(s - {m});
      IncreasingCons(m, rest);
      ElementsConcat([m], rest);
      [m] + rest
  }

  lemma {:induction false} SortIsUnique(r: seq<Name>)
    requires Increasing(r)
    ensures r == Sort(Elements(r))
    ensures |Elements(r)| == |r|
  {
    var s := Elements(r);
    if r != [] {
      assert r[0] in s;
      var m := Least(s);
      assert m == r[0] by {
        var i :| 0 <= i < |r| && r[i] == m;
        assert AtMost(m, r[0]);
        LessIsStrict(m, r[0]);
      }
      assert r == [r[0]] + r[1..];
      assert Elements(r[1..]) == s - {m} by {
        forall x ensures x in r[1..] <==> x in s - {m} {
          if x in r[1..] {
            var i :| 1 <= i < |r| && r[i] == x;
            LessIsStrict(m, x);
          }
        }
      }
      SortIsUnique(r[1..]);
    }
  }

  // An increasing list repeats no name.
  lemma IncreasingIsDistinct(r: seq<Name>)
    requires Increasing(r)
    ensures forall i, j | 0 <= i < j < |r| :: r[i] != r[j]
  {
    forall i, j | 0 <= i < j < |r| ensures r[i] != r[j] {
      LessIsStrict(r[i], r[j]);
    }
  }

  lemma {:induction false} SubsetIsNotLarger<T>(a: set<T>, b: set<T>)
    requires a <= b
    ensures |a| <= |b|
  {
    if a != {} {
      var x :| x in a;
      SubsetIsNotLarger(a - {x}, b - {x});
    }
  }

  // ----- sorting by a key

  // `sort((first, second) => ...)` by a key: an item goes before the first one with a
  // greater key.
  function InsertBy<T>(key: T -> Name, item: T, sorted: seq<T>): seq<T> {
    if sorted == [] then [item]
    else if Less(key(item), key(sorted[0])) then [item] + sorted
    else [sorted[0]] + InsertBy(key, item, sorted[1..])
  }

  function SortBy<T>(key: T -> Name, items: seq<T>): seq<T> {
    if items == [] then [] else var last := |items| - 1; InsertBy(key, items[last], SortBy(key, items[..last]))
  }

  predicate Ascending<T>(key: T -> Name, items: seq<T>) {
    forall i, j | 0 <= i < j < |items| :: AtMost(key(items[i]), key(items[j]))
  }

  lemma AtMostTransitive(a: Name, b: Name, c: Name)
    requires AtMost(a, b) && AtMost(b, c)
    ensures AtMost(a, c)
  {
    if Less(a, b) && Less(b, c) { LessTransitive(a, b, c); }
  }

  // An item that is at most all of an ascending list may go before it.
  lemma AscendingCons<T>(key: T -> Name, item: T, sorted: seq<T>)
    requires Ascending(key, sorted) && forall x | x in sorted :: AtMost(key(item), key(x))
    ensures Ascending(key, [item] + sorted)
  {
  }

  lemma {:induction false} InsertByKeeps<T>(key: T -> Name, item: T, sorted: seq<T>)
    ensures multiset(InsertBy(key, item, sorted)) == multiset(sorted) + multiset{item}
  {
    if sorted != [] {
      InsertByKeeps(key, item, sorted[1..]);
      assert sorted == [sorted[0]] + sorted[1..];
    }
  }

  lemma InsertByHolds<T>(key: T -> Name, item: T, sorted: seq<T>, x: T)
    ensures x in InsertBy(key, item, sorted) <==> x == item || x in sorted
  {
    InsertByKeeps(key, item, sorted);
    assert x in InsertBy(key, item, sorted) <==> x in multiset(InsertBy(key, item, sorted));
    assert x in sorted <==> x in multiset(sorted);
  }

  lemma {:induction false} InsertByAscends<T>(key: T -> Name, item: T, sorted: seq<T>)
    requires Ascending(key, sorted)
    ensures Ascending(key, InsertBy(key, item, sorted))
  {
    if sorted != [] {
      var first, rest := sorted[0], sorted[1..];
      LessIsTotal(key(item), key(first));
      if Less(key(item), key(first)) {
        forall x | x in sorted ensures AtMost(key(item), key(x)) {
          AtMostTransitive(key(item), key(first), key(x));
        }
        AscendingCons(key, item, sorted);
      } else {
        InsertByAscends(key, item, rest);
        InsertByKeeps(key, item, rest);
        forall x | x in InsertBy(key, item, rest) ensures AtMost(key(first), key(x)) {
          InsertByHolds(key, item, rest, x);
          if x in rest {
            FirstIsAtMost(key, sorted, x);
          }
        }
        AscendingCons(key, first, InsertBy(key, item, rest));
      }
    }
  }

  // Sorting keeps every item as often as it is there, in ascending order of the keys.
  lemma {:induction false} SortByKeeps<T>(key: T -> Name, items: seq<T>)
    ensures multiset(SortBy(key, items)) == multiset(items)
    ensures Ascending(key, SortBy(key, items))
  {
    if items != [] {
      var last := |items| - 1;
      SortByKeeps(key, items[..last]);
      InsertByKeeps(key, items[last], SortBy(key, items[..last]));
      InsertByAscends(key, items[last], SortBy(key, items[..last]));
      assert items == items[..last] + [items[last]];
    }
  }

  lemma FirstIsAtMost<T>(key: T -> Name, items: seq<T>, x: T)
    requires items != [] && Ascending(key, items) && x in items
    ensures AtMost(key(items[0]), key(x))
  {
    var i :| 0 <= i < |items| && items[i] == x;
  }

  lemma SameFirst<T>(key: T -> Name, a: seq<T>, b: seq<T>)
    requires a != [] && b != [] && Ascending(key, a) && Ascending(key, b) && a[0] in b && b[0] in a
    ensures key(a[0]) == key(b[0])
  {
    FirstIsAtMost(key, a, b[0]);
    FirstIsAtMost(key, b, a[0]);
    LessIsStrict(key(a[0]), key(b[0]));
  }

  lemma SameMembers<T>(a: seq<T>, b: seq<T>, x: T)
    requires multiset(a) == multiset(b)
    ensures x in a <==> x in b
  {
    assert x in a <==> x in multiset(a);
    assert x in b <==> x in multiset(b);
  }

  lemma RestAsMultiset<T>(a: seq<T>)
    requires a != []
    ensures multiset(a[1..]) == multiset(a) - multiset{a[0]}
  {
    assert a == [a[0]] + a[1..];
  }

  lemma SameSize<T>(a: seq<T>, b: seq<T>)
    requires multiset(a) == multiset(b)
    ensures |a| == |b|
  {
    assert |multiset(a)| == |a| && |multiset(b)| == |b|;
  }

  // Where a key belongs to one item, items come in one ascending order only.
  lemma {:induction false} AscendingIsUnique<T>(key: T -> Name, a: seq<T>, b: seq<T>)
    requires Ascending(key, a) && Ascending(key, b) && multiset(a) == multiset(b)
    requires forall x, y | x in a && y in a && key(x) == key(y) :: x == y
    ensures a == b
  {
    SameSize(a, b);
    if a != [] {
      SameMembers(a, b, a[0]);
      SameMembers(a, b, b[0]);
      SameFirst(key, a, b);
      RestAsMultiset(a);
      RestAsMultiset(b);
      AscendingIsUnique(key, a[1..], b[1..]);
      assert a == [a[0]] + a[1..] && b == [b[0]] + b[1..];
    }
  }
}
