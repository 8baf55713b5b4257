/** `com.urlshortener.model.User`: an owner and the ordered list of the short codes it created. */
module Users {
  import opened Uuids

  /** The position of the first occurrence of `x` in `s`. */
  function IndexOf<T(==)>(s: seq<T>, x: T): (i: nat)
    requires x in s
    ensures i < |s| && s[i] == x
    ensures forall j | 0 <= j < i :: s[j] != x
  {
    if s[0] == x then 0 else 1 + IndexOf(s[1..], x)
  }

  /** `List.remove(Object)`: drops the first element equal to `x`, if there is one. */
  function RemoveFirst<T(==)>(s: seq<T>, x: T): (r: seq<T>)
    ensures x !in s ==> r == s
    ensures x in s ==> |r| == |s| - 1
  {
    if s == [] then []
    else if s[0] == x then s[1..]
    else [s[0]] + RemoveFirst(s[1..], x)
  }

  /** What is dropped is exactly the first occurrence; everything before and after it stays. */
  lemma {:induction false} RemoveFirstSplit<T>(s: seq<T>, x: T)
    requires x in s
    ensures RemoveFirst(s, x) == s[..IndexOf(s, x)] + s[IndexOf(s, x) + 1..]
  {
    if s[0] != x {
      var t := s[1..];
      assert x in t;
      RemoveFirstSplit(t, x);
      var j := IndexOf(t, x);
      assert s[..j + 1] == [s[0]] + t[..j];
      assert s[j + 2..] == t[j + 1..];
    }
  }

  /** Removing the first occurrence removes exactly one copy of `x` and nothing else. */
  lemma RemoveFirstMultiset<T>(s: seq<T>, x: T)
    requires x in s
    ensures multiset(RemoveFirst(s, x)) == multiset(s) - multiset{x}
  {
    var i := IndexOf(s, x);
    RemoveFirstSplit(s, x);
    assert s == s[..i] + [x] + s[i + 1..];
    calc {
      multiset(s);
      multiset(s[..i]) + multiset{x} + multiset(s[i + 1..]);
      multiset(s[..i] + s[i + 1..]) + multiset{x};
    }
  }

  /** The first occurrence in `s` of each element of `d` dropped; other elements keep their order. */
  function RemoveFirstOfEach<T(==)>(s: seq<T>, d: set<T>): (r: seq<T>)
    ensures |r| <= |s|
    ensures d == {} ==> r == s
  {
    if s == [] then []
    else if s[0] in d then RemoveFirstOfEach(s[1..], d - {s[0]})
    else [s[0]] + RemoveFirstOfEach(s[1..], d)
  }

  /** Dropping first occurrences one code at a time, in any order, is dropping them all at once. */
  lemma {:induction false} RemoveFirstOfEachStep<T>(s: seq<T>, d: set<T>, x: T)
    requires x !in d
    ensures RemoveFirst(RemoveFirstOfEach(s, d), x) == RemoveFirstOfEach(s, d + {x})
  {
    if s != [] {
      var y, t := s[0], s[1..];
      if y in d {
        assert (d + {x}) - {y} == (d - {y}) + {x};
        RemoveFirstOfEachStep(t, d - {y}, x);
      } else if y == x {
        assert (d + {x}) - {x} == d;
      } else {
        RemoveFirstOfEachStep(t, d, x);
      }
    }
  }

  /** Each listed element loses one copy if it is in `d` and occurs in `s`; the rest are kept. */
  lemma {:induction false} RemoveFirstOfEachCount<T>(s: seq<T>, d: set<T>, x: T)
    ensures multiset(RemoveFirstOfEach(s, d))[x] ==
      if x in d && x in s then multiset(s)[x] - 1 else multiset(s)[x]
  {
    if s != [] {
      var y, t := s[0], s[1..];
      assert s == [y] + t;
      if y in d {
        RemoveFirstOfEachCount(t, d - {y}, x);
      } else {
        RemoveFirstOfEachCount(t, d, x);
        assert RemoveFirstOfEach(s, d) == [y] + RemoveFirstOfEach(t, d);
      }
    }
  }

  class User {
    const id: Uuid
    var shortUrls: seq<string>

    /** `new User(id)`, and `new User()` with the random identifier passed in. */
    constructor (id: Uuid)
      ensures this.id == id && shortUrls == []
    {
      this.id := id;
      this.shortUrls := [];
    }

    function GetShortUrls(): seq<string>
      reads this
    {
      shortUrls
    }

    method SetShortUrls(shortUrls: seq<string>)
      modifies this`shortUrls
      ensures this.shortUrls == shortUrls
    {
      this.shortUrls := shortUrls;
    }

    /** Appends at the end; a code already present is appended again. */
    method AddShortUrl(shortUrl: string)
      modifies this`shortUrls
      ensures shortUrls == old(shortUrls) + [shortUrl]
    {
      shortUrls := shortUrls + [shortUrl];
    }

    method RemoveShortUrl(shortUrl: string)
      modifies this`shortUrls
      ensures shortUrls == RemoveFirst(old(shortUrls), shortUrl)
    {
      shortUrls := RemoveFirst(shortUrls, shortUrl);
    }
  }
}
