/** Concatenated item encodings: lengths, growth at either end, and unique decodability. */
module Codes {

  /** The encodings of a list of items, one after the other. */
  function FlatMap<T, U>(items: seq<T>, enc: T -> seq<U>): seq<U> {
    if items == [] then [] else enc(items[0]) + FlatMap(items[1..], enc)
  }

  lemma HeadAndRest<T>(a: seq<T>, b: seq<T>)
    requires a != []
    ensures (a + b)[0] == a[0] && (a + b)[1..] == a[1..] + b
  {
  }

  lemma Associates<T>(x: seq<T>, y: seq<T>, w: seq<T>)
    ensures x + (y + w) == x + y + w
  {
  }

  lemma {:induction false} FlatMapAppend<T, U>(a: seq<T>, b: seq<T>, enc: T -> seq<U>)
    ensures FlatMap(a + b, enc) == FlatMap(a, enc) + FlatMap(b, enc)
  {
    if a == [] {
      assert a + b == b;
    } else {
      FlatMapAppend(a[1..], b, enc);
      HeadAndRest(a, b);
      Associates(enc(a[0]), FlatMap(a[1..], enc), FlatMap(b, enc));
    }
  }

  lemma FlatMapSnoc<T, U>(a: seq<T>, x: T, enc: T -> seq<U>)
    ensures FlatMap(a + [x], enc) == FlatMap(a, enc) + enc(x)
  {
    FlatMapAppend(a, [x], enc);
    assert FlatMap([x], enc) == enc(x) + FlatMap([x][1..], enc) == enc(x);
  }

  lemma {:induction false} FlatMapLength<T(!new), U>(items: seq<T>, enc: T -> seq<U>, width: nat)
    requires forall x :: |enc(x)| == width
    ensures |FlatMap(items, enc)| == width * |items|
  {
    if items != [] {
      FlatMapLength(items[1..], enc, width);
    }
  }

  /** Splitting the list at `n` splits the output at the length of the first part. */
  lemma FlatMapSplit<T, U>(items: seq<T>, enc: T -> seq<U>, n: nat)
    requires n <= |items|
    ensures FlatMap(items, enc) == FlatMap(items[..n], enc) + FlatMap(items[n..], enc)
    ensures n < |items| ==> FlatMap(items[n..], enc) == enc(items[n]) + FlatMap(items[n + 1..], enc)
    ensures n < |items| ==> FlatMap(items[..n + 1], enc) == FlatMap(items[..n], enc) + enc(items[n])
  {
    assert items == items[..n] + items[n..];
    FlatMapAppend(items[..n], items[n..], enc);
    if n < |items| {
      assert items[n..][1..] == items[n + 1..];
      FlatMapSnoc(items[..n], items[n], enc);
      assert items[..n + 1] == items[..n] + [items[n]];
    }
  }

  /** No item's encoding is empty or a prefix of another item's. */
  ghost predicate PrefixCode<T(!new), U>(enc: T -> seq<U>) {
    && (forall x :: enc(x) != [])
    && (forall x, y :: enc(x) <= enc(y) ==> x == y)
  }

  /** A string splits into the encodings of a list of items in at most one way, whatever the
      lengths of the lists. */
  lemma {:induction false} UniquelyDecodable<T(!new), U>(a: seq<T>, b: seq<T>, enc: T -> seq<U>)
    requires PrefixCode(enc)
    requires FlatMap(a, enc) == FlatMap(b, enc)
    ensures a == b
  {
    if a != [] && b != [] {
      var s := FlatMap(a, enc);
      OnePrefixContainsTheOther(enc(a[0]), enc(b[0]), s);
      assert s[|enc(a[0])|..] == FlatMap(a[1..], enc) == FlatMap(b[1..], enc);
      UniquelyDecodable(a[1..], b[1..], enc);
      assert a == [a[0]] + a[1..] && b == [b[0]] + b[1..];
    }
  }

  lemma OnePrefixContainsTheOther<U>(x: seq<U>, y: seq<U>, s: seq<U>)
    requires x <= s && y <= s
    ensures x <= y || y <= x
  {
    assert x == s[..|x|] && y == s[..|y|];
  }

  /** A stretch of a string is two pieces, one after the other, when its halves are. */
  lemma Halves<T>(s: seq<T>, p: nat, q: nat, r: nat, x: seq<T>, y: seq<T>)
    requires p <= q <= r <= |s| && |x| == q - p && |y| == r - q
    ensures s[p..r] == x + y <==> s[p..q] == x && s[q..r] == y
  {
    assert s[p..r] == s[p..q] + s[q..r];
    if s[p..r] == x + y {
      assert s[p..q] == s[p..r][..q - p] && s[q..r] == s[p..r][q - p..];
    }
  }
}
