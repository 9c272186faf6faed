/** Go's string order, and sorting by a string key. */
module Order {

  predicate Less(a: string, b: string) {
    if b == "" then false
    else if a == "" then true
    else if a[0] != b[0] then a[0] < b[0]
    else Less(a[1..], b[1..])
  }

  lemma {:induction false} LessIrreflexive(a: string)
    ensures !Less(a, a)
  {
    if a != "" {
      LessIrreflexive(a[1..]);
    }
  }

  lemma {:induction false} LessTransitive(a: string, b: string, c: string)
    requires Less(a, b) && Less(b, c)
    ensures Less(a, c)
  {
    if a != "" && a[0] == b[0] == c[0] {
      LessTransitive(a[1..], b[1..], c[1..]);
    }
  }

  lemma {:induction false} LessTotal(a: string, b: string)
    ensures Less(a, b) || a == b || Less(b, a)
  {
    if a != "" && b != "" && a[0] == b[0] {
      LessTotal(a[1..], b[1..]);
      assert a == [a[0]] + a[1..] && b == [b[0]] + b[1..];
    }
  }

  /** Inserts before the first element that is not smaller. */
  function Insert<T>(key: T -> string, x: T, s: seq<T>): seq<T> {
    if s == [] || !Less(key(s[0]), key(x)) then [x] + s else [s[0]] + Insert(key, x, s[1..])
  }

  /** What a library sort yields: the same elements, in the order of their keys. */
  function SortBy<T>(key: T -> string, s: seq<T>): seq<T> {
    if s == [] then [] else Insert(key, s[0], SortBy(key, s[1..]))
  }

  ghost predicate StrictlyAscending<T>(key: T -> string, s: seq<T>) {
    forall i, j | 0 <= i < j < |s| :: Less(key(s[i]), key(s[j]))
  }

  ghost predicate DistinctKeys<T>(key: T -> string, s: seq<T>) {
    forall i, j | 0 <= i < j < |s| :: key(s[i]) != key(s[j])
  }

  lemma {:induction false} InsertMultiset<T>(key: T -> string, x: T, s: seq<T>)
    ensures multiset(Insert(key, x, s)) == multiset([x]) + multiset(s)
  {
    if s != [] && Less(key(s[0]), key(x)) {
      InsertMultiset(key, x, s[1..]);
      assert s == [s[0]] + s[1..];
    }
  }

  lemma SameElements<T>(a: seq<T>, b: seq<T>)
    requires multiset(a) == multiset(b)
    ensures forall x :: x in a <==> x in b
  {
    assert forall x :: x in a <==> x in multiset(a);
    assert forall x :: x in b <==> x in multiset(b);
  }

  lemma {:induction false} SortMultiset<T>(key: T -> string, s: seq<T>)
    ensures multiset(SortBy(key, s)) == multiset(s)
    ensures forall x :: x in SortBy(key, s) <==> x in s
  {
    if s != [] {
      SortMultiset(key, s[1..]);
      InsertMultiset(key, s[0], SortBy(key, s[1..]));
      assert s == [s[0]] + s[1..];
    }
    SameElements(SortBy(key, s), s);
  }

  lemma {:induction false} InsertAscending<T>(key: T -> string, x: T, s: seq<T>)
    requires StrictlyAscending(key, s)
    requires forall y | y in s :: key(y) != key(x)
    ensures StrictlyAscending(key, Insert(key, x, s))
  {
    if s == [] {
    } else if Less(key(s[0]), key(x)) {
      assert forall i | 0 <= i < |s| - 1 :: s[1..][i] == s[i + 1];
      InsertAscending(key, x, s[1..]);
      InsertMultiset(key, x, s[1..]);
      var rest := Insert(key, x, s[1..]);
      forall j | 0 <= j < |rest| ensures Less(key(s[0]), key(rest[j])) {
        assert rest[j] in multiset(rest);
        assert rest[j] in multiset([x]) || rest[j] in multiset(s[1..]);
        assert rest[j] == x || rest[j] in s[1..];
      }
    } else {
      forall j | 0 <= j < |s| ensures Less(key(x), key(s[j])) {
        LessTotal(key(s[0]), key(x));
        if j > 0 {
          LessTransitive(key(x), key(s[0]), key(s[j]));
        }
      }
    }
  }

  /** Distinct keys come out strictly ascending. */
  lemma {:induction false} SortAscending<T>(key: T -> string, s: seq<T>)
    requires DistinctKeys(key, s)
    ensures StrictlyAscending(key, SortBy(key, s))
  {
    if s != [] {
      var rest := s[1..];
      assert forall i | 0 <= i < |rest| :: rest[i] == s[i + 1];
      SortAscending(key, rest);
      SortMultiset(key, rest);
      forall y | y in SortBy(key, rest) ensures key(y) != key(s[0]) {
        assert y in multiset(SortBy(key, rest));
        assert y in rest;
      }
      InsertAscending(key, s[0], SortBy(key, rest));
    }
  }

  /** At their first difference, one text has the smaller character. */
  predicate SmallerFirst(a: string, b: string) {
    exists i | 0 <= i < |a| && i < |b| && a[..i] == b[..i] :: a[i] < b[i]
  }

  lemma SmallerLater(c: char, x: string, y: string)
    requires SmallerFirst(x, y)
    ensures SmallerFirst([c] + x, [c] + y)
  {
    var a, b := [c] + x, [c] + y;
    var i :| 0 <= i < |x| && i < |y| && x[..i] == y[..i] && x[i] < y[i];
    assert a[..i + 1] == [c] + x[..i] && b[..i + 1] == [c] + y[..i];
    assert a[i + 1] < b[i + 1];
  }

  lemma SmallerEarlier(c: char, x: string, y: string)
    requires SmallerFirst([c] + x, [c] + y)
    ensures SmallerFirst(x, y)
  {
    var a, b := [c] + x, [c] + y;
    var i :| 0 <= i < |a| && i < |b| && a[..i] == b[..i] && a[i] < b[i];
    var k := i - 1;
    assert a[i] == x[k] && b[i] == y[k];
    assert x[..k] == a[..i][1..] && y[..k] == b[..i][1..];
  }

  lemma SmallerBehind(c: char, x: string, y: string)
    ensures SmallerFirst([c] + x, [c] + y) <==> SmallerFirst(x, y)
  {
    hide SmallerFirst;
    if SmallerFirst(x, y) {
      SmallerLater(c, x, y);
    }
    if SmallerFirst([c] + x, [c] + y) {
      SmallerEarlier(c, x, y);
    }
  }

  lemma SameHead(a: string, b: string, i: nat)
    requires i <= |a| && i <= |b| && a[..i] == b[..i]
    ensures i == 0 || a[0] == b[0]
  {
    assert i > 0 ==> a[..i][0] == a[0] && b[..i][0] == b[0];
  }

  lemma SmallerAhead(a: string, b: string)
    requires a != "" && b != "" && a[0] != b[0]
    ensures SmallerFirst(a, b) <==> a[0] < b[0]
  {
    if a[0] < b[0] {
      assert a[..0] == b[..0];
    }
    if SmallerFirst(a, b) {
      var i :| 0 <= i < |a| && i < |b| && a[..i] == b[..i] && a[i] < b[i];
      SameHead(a, b, i);
    }
  }

  /** The order of the first difference; where there is none, a proper prefix comes first. */
  lemma {:induction false} LessLaw(a: string, b: string)
    ensures Less(a, b) <==> a < b || SmallerFirst(a, b)
  {
    if a != "" && b != "" {
      if a[0] == b[0] {
        LessLaw(a[1..], b[1..]);
        SmallerBehind(a[0], a[1..], b[1..]);
        assert a == [a[0]] + a[1..] && b == [b[0]] + b[1..];
        assert a < b <==> a[1..] < b[1..];
      } else {
        SmallerAhead(a, b);
      }
    }
  }
}
