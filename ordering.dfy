/**
  The order of both listings: `find().sort({ createdAt: -1 })`, newest first.
  The sort is the document store's; here it is an insertion sort over a key
  function, specified by what any descending sort promises (a permutation,
  non-increasing keys), so nothing is claimed about the order of ties.
*/
module Ordering {

  /** Keys never increase from left to right. */
  ghost predicate NewestFirst<T>(s: seq<T>, key: T -> nat) {
    forall i, j | 0 <= i < j < |s| :: key(s[i]) >= key(s[j])
  }

  /** Keys strictly increase from left to right (insertion order of the store). */
  ghost predicate StrictlyAscending<T>(s: seq<T>, key: T -> nat) {
    forall i, j | 0 <= i < j < |s| :: key(s[i]) < key(s[j])
  }

  function Reverse<T>(s: seq<T>): (r: seq<T>)
    ensures |r| == |s|
    ensures forall i | 0 <= i < |s| :: r[i] == s[|s| - 1 - i]
  {
    if |s| == 0 then [] else Reverse(s[1..]) + [s[0]]
  }

  /** Places `x` in front of the first element whose key is not larger. */
  function Insert<T>(x: T, s: seq<T>, key: T -> nat): (r: seq<T>)
    ensures multiset(r) == multiset(s) + multiset{x}
    ensures |r| == |s| + 1
    ensures r[0] == x || (|s| > 0 && r[0] == s[0])
    ensures NewestFirst(s, key) ==> NewestFirst(r, key)
  {
    if |s| == 0 then [x]
    else if key(x) >= key(s[0]) then [x] + s
    else
      assert s == [s[0]] + s[1..];
      var rest := Insert(x, s[1..], key);
      assert NewestFirst(s, key) ==> NewestFirst([s[0]] + rest, key) by {
        if NewestFirst(s, key) {
          assert NewestFirst(s[1..], key);
          assert key(s[0]) >= key(rest[0]);
          forall i, j | 0 <= i < j < |rest| + 1
            ensures key(([s[0]] + rest)[i]) >= key(([s[0]] + rest)[j])
          {
            if i == 0 && j > 1 {
              assert key(rest[0]) >= key(rest[j - 1]);
            }
          }
        }
      }
      [s[0]] + rest
  }

  function SortNewestFirst<T>(s: seq<T>, key: T -> nat): (r: seq<T>)
    ensures multiset(r) == multiset(s)
    ensures NewestFirst(r, key)
  {
    if |s| == 0 then []
    else
      assert s == [s[0]] + s[1..];
      Insert(s[0], SortNewestFirst(s[1..], key), key)
  }

  /** An element older than everything in `s` goes to the end. */
  lemma {:induction false} InsertOldest<T>(x: T, s: seq<T>, key: T -> nat)
    requires forall i | 0 <= i < |s| :: key(x) < key(s[i])
    ensures Insert(x, s, key) == s + [x]
  {
    if |s| > 0 {
      InsertOldest(x, s[1..], key);
      assert s == [s[0]] + s[1..];
    }
  }

  /**
    When keys strictly increase in insertion order (every write takes a fresh,
    larger timestamp), newest first is exactly the reverse insertion order.
  */
  lemma {:induction false} SortOfAscendingIsReverse<T>(s: seq<T>, key: T -> nat)
    requires StrictlyAscending(s, key)
    ensures SortNewestFirst(s, key) == Reverse(s)
  {
    if |s| > 0 {
      var rest := s[1..];
      assert StrictlyAscending(rest, key);
      SortOfAscendingIsReverse(rest, key);
      var t := Reverse(rest);
      forall i | 0 <= i < |t| ensures key(s[0]) < key(t[i]) {
        assert t[i] == s[|s| - 1 - i];
      }
      InsertOldest(s[0], t, key);
    }
  }
}
