/** state/pkg/compiled_package_repo.go: the key under which a compiled package is kept, and
    what two packages with the same key have in common. */
module CacheKeys {

  datatype Label = Label(name: string, fingerprint: string)

  datatype PackageKey = PackageKey(name: string, fingerprint: string, dependencyKey: string)

  // ----- Sorting strings: what sort.Strings computes, byte by byte -----

  predicate Le(a: string, b: string) {
    a == [] || (b != [] && (a[0] < b[0] || (a[0] == b[0] && Le(a[1..], b[1..]))))
  }

  lemma {:induction false} LeTotal(a: string, b: string)
    ensures Le(a, b) || Le(b, a)
    ensures Le(a, b) && Le(b, a) ==> a == b
  {
    if a != [] && b != [] && a[0] == b[0] {
      LeTotal(a[1..], b[1..]);
      assert a == [a[0]] + a[1..] && b == [b[0]] + b[1..];
    }
  }

  lemma {:induction false} LeTransitive(a: string, b: string, c: string)
    requires Le(a, b) && Le(b, c)
    ensures Le(a, c)
  {
    if a != [] && a[0] == b[0] == c[0] {
      LeTransitive(a[1..], b[1..], c[1..]);
    }
  }

  ghost predicate Sorted(xs: seq<string>) {
    forall i, j | 0 <= i < j < |xs| :: Le(xs[i], xs[j])
  }

  function Insert(x: string, xs: seq<string>): (r: seq<string>)
    ensures multiset(r) == multiset(xs) + multiset{x}
  {
    if xs == [] then [x]
    else if Le(x, xs[0]) then [x] + xs
    else assert xs == [xs[0]] + xs[1..]; [xs[0]] + Insert(x, xs[1..])
  }

  function SortStrings(xs: seq<string>): (r: seq<string>)
    ensures multiset(r) == multiset(xs)
  {
    if xs == [] then [] else assert xs == [xs[0]] + xs[1..]; Insert(xs[0], SortStrings(xs[1..]))
  }

  lemma {:induction false} InsertSorted(x: string, xs: seq<string>)
    requires Sorted(xs)
    ensures Sorted(Insert(x, xs))
  {
    if xs != [] {
      LeTotal(x, xs[0]);
      if Le(x, xs[0]) {
        forall j | 0 <= j < |xs| ensures Le(x, xs[j]) {
          if j > 0 { LeTransitive(x, xs[0], xs[j]); }
        }
      } else {
        InsertSorted(x, xs[1..]);
        var rest := Insert(x, xs[1..]);
        forall j | 0 <= j < |rest| ensures Le(xs[0], rest[j]) {
          assert rest[j] in multiset(rest);
          assert rest[j] == x || rest[j] in xs[1..];
        }
      }
    }
  }

  lemma {:induction false} SortStringsSorted(xs: seq<string>)
    ensures Sorted(SortStrings(xs))
  {
    if xs != [] {
      SortStringsSorted(xs[1..]);
      InsertSorted(xs[0], SortStrings(xs[1..]));
    }
  }

  lemma RemoveAt<T>(s: seq<T>, j: nat)
    requires j < |s|
    ensures multiset(s[..j] + s[j + 1..]) == multiset(s) - multiset{s[j]}
  {
    assert s == s[..j] + [s[j]] + s[j + 1..];
  }

  lemma LeastIsFirst(xs: seq<string>, x: string)
    requires Sorted(xs) && x in xs
    ensures Le(xs[0], x)
  {
    LeTotal(x, x);
    var i :| 0 <= i < |xs| && xs[i] == x;
  }

  lemma LeastOfBoth(xs: seq<string>, ys: seq<string>)
    requires Sorted(xs) && Sorted(ys) && multiset(xs) == multiset(ys) && xs != []
    ensures ys != [] && xs[0] == ys[0]
  {
    assert xs[0] in multiset(ys);
    assert ys[0] in multiset(xs);
    LeastIsFirst(xs, ys[0]);
    LeastIsFirst(ys, xs[0]);
    LeTotal(xs[0], ys[0]);
  }

  lemma SortedTail(xs: seq<string>)
    requires Sorted(xs) && xs != []
    ensures Sorted(xs[1..]) && multiset(xs[1..]) == multiset(xs) - multiset{xs[0]}
  {
    assert xs == [xs[0]] + xs[1..];
  }

  /** A multiset of strings has one sorted sequence. */
  lemma {:induction false} SortedUnique(xs: seq<string>, ys: seq<string>)
    requires Sorted(xs) && Sorted(ys) && multiset(xs) == multiset(ys)
    ensures xs == ys
  {
    hide *;
    if xs == [] {
      assert |multiset(ys)| == 0;
    } else {
      LeastOfBoth(xs, ys);
      SortedTail(xs);
      SortedTail(ys);
      SortedUnique(xs[1..], ys[1..]);
      assert xs == [xs[0]] + xs[1..] && ys == [ys[0]] + ys[1..];
    }
  }

  lemma SortedSame(xs: seq<string>, ys: seq<string>)
    ensures SortStrings(xs) == SortStrings(ys) <==> multiset(xs) == multiset(ys)
  {
    SortStringsSorted(xs);
    SortStringsSorted(ys);
    if multiset(xs) == multiset(ys) {
      SortedUnique(SortStrings(xs), SortStrings(ys));
    }
  }

  // ----- Joining and taking apart -----

  function Join(xs: seq<string>): string {
    if xs == [] then "" else if |xs| == 1 then xs[0] else xs[0] + "," + Join(xs[1..])
  }

  lemma FirstSeparator(a: string, c: char, x: string)
    requires c !in a
    ensures (a + [c] + x)[|a|] == c
    ensures forall k | 0 <= k < |a| :: (a + [c] + x)[k] != c
  {}

  /** Two texts that agree, each with its first separator where it is given, agree on what
      is before and on what is after it. */
  lemma SameSplit(a: string, b: string, c: char, x: string, y: string)
    requires c !in a && c !in b && a + [c] + x == b + [c] + y
    ensures a == b && x == y
  {
    var s := a + [c] + x;
    FirstSeparator(a, c, x);
    FirstSeparator(b, c, y);
    assert |a| == |b|;
    assert a == s[..|a|] && b == s[..|b|];
    assert x == s[|a| + 1..] && y == s[|b| + 1..];
  }

  lemma JoinFacts(xs: seq<string>)
    requires forall x | x in xs :: x != "" && ',' !in x
    ensures Join(xs) == "" <==> xs == []
    ensures |xs| >= 2 <==> ',' in Join(xs)
  {
    if |xs| >= 2 {
      assert Join(xs)[|xs[0]|] == ',';
    } else if |xs| == 1 {
      assert xs[0] in xs;
    }
  }

  lemma {:induction false} JoinInjective(xs: seq<string>, ys: seq<string>)
    requires forall x | x in xs :: x != "" && ',' !in x
    requires forall y | y in ys :: y != "" && ',' !in y
    requires Join(xs) == Join(ys)
    ensures xs == ys
  {
    JoinFacts(xs);
    JoinFacts(ys);
    if |xs| >= 2 {
      assert xs[0] in xs && ys[0] in ys;
      assert Join(xs) == xs[0] + [','] + Join(xs[1..]);
      assert Join(ys) == ys[0] + [','] + Join(ys[1..]);
      SameSplit(xs[0], ys[0], ',', Join(xs[1..]), Join(ys[1..]));
      assert forall x | x in xs[1..] :: x in xs;
      assert forall y | y in ys[1..] :: y in ys;
      JoinInjective(xs[1..], ys[1..]);
    }
  }

  function Text(l: Label): string {
    l.name + ":" + l.fingerprint
  }

  /** Names and fingerprints that cannot be mistaken for more than they are. */
  predicate Plain(l: Label) {
    ':' !in l.name && ',' !in l.name && ',' !in l.fingerprint
  }

  lemma TextInjective(a: Label, b: Label)
    requires Plain(a) && Plain(b) && Text(a) == Text(b)
    ensures a == b
  {
    assert Text(a) == a.name + [':'] + a.fingerprint && Text(b) == b.name + [':'] + b.fingerprint;
    SameSplit(a.name, b.name, ':', a.fingerprint, b.fingerprint);
  }

  // ----- The dependency key -----

  function Map<A, B>(f: A -> B, xs: seq<A>): (r: seq<B>)
    ensures |r| == |xs| && forall i | 0 <= i < |r| :: r[i] == f(xs[i])
  {
    seq(|xs|, i requires 0 <= i < |xs| => f(xs[i]))
  }

  function Texts(ls: seq<Label>): seq<string> {
    Map(Text, ls)
  }

  function DependencyKey(ls: seq<Label>): string {
    Join(SortStrings(Texts(ls)))
  }

  lemma MapWithout<A, B>(f: A -> B, xs: seq<A>, j: nat)
    requires j < |xs|
    ensures f(xs[j]) in multiset(Map(f, xs))
    ensures multiset(Map(f, xs[..j] + xs[j + 1..])) == multiset(Map(f, xs)) - multiset{f(xs[j])}
  {
    RemoveAt(Map(f, xs), j);
    assert Map(f, xs)[j] == f(xs[j]);
    assert Map(f, xs[..j] + xs[j + 1..]) == Map(f, xs)[..j] + Map(f, xs)[j + 1..];
  }

  lemma SharedElement<A>(a: seq<A>, b: seq<A>) returns (j: nat)
    requires multiset(a) == multiset(b) && a != []
    ensures j < |b| && b[j] == a[0]
    ensures multiset(a[..0] + a[0 + 1..]) == multiset(b[..j] + b[j + 1..])
  {
    assert a[0] in multiset(b);
    j :| 0 <= j < |b| && b[j] == a[0];
    RemoveAt(a, 0);
    RemoveAt(b, j);
  }

  lemma {:induction false} SameMapped<A, B>(f: A -> B, a: seq<A>, b: seq<A>)
    requires multiset(a) == multiset(b)
    ensures multiset(Map(f, a)) == multiset(Map(f, b))
    decreases |a|
  {
    if a == [] {
      assert |multiset(b)| == 0;
    } else {
      hide *;
      var j := SharedElement(a, b);
      SameMapped(f, a[..0] + a[0 + 1..], b[..j] + b[j + 1..]);
      MapWithout(f, a, 0);
      MapWithout(f, b, j);
      PutBack(multiset(Map(f, a)), multiset(Map(f, b)), f(a[0]));
    }
  }

  lemma PutBack<T>(a: multiset<T>, b: multiset<T>, x: T)
    requires x in a && x in b && a - multiset{x} == b - multiset{x}
    ensures a == b
  {
    assert a == (a - multiset{x}) + multiset{x} && b == (b - multiset{x}) + multiset{x};
  }

  ghost predicate AllPlain(ls: seq<Label>) {
    forall l | l in ls :: Plain(l)
  }

  lemma StillPlain(ls: seq<Label>, i: nat)
    requires AllPlain(ls) && i < |ls|
    ensures AllPlain(ls[..i] + ls[i + 1..])
  {
    hide Plain;
  }

  lemma SameTextSameLabel(a: seq<Label>, b: seq<Label>, j: nat)
    requires AllPlain(a) && AllPlain(b) && a != [] && j < |b| && Texts(b)[j] == Texts(a)[0]
    ensures b[j] == a[0]
  {
    hide Plain;
    assert a[0] in a && b[j] in b;
    TextInjective(a[0], b[j]);
  }

  lemma SharedText(a: seq<Label>, b: seq<Label>) returns (j: nat)
    requires AllPlain(a) && AllPlain(b) && multiset(Texts(a)) == multiset(Texts(b)) && a != []
    ensures j < |b| && b[j] == a[0]
    ensures AllPlain(a[..0] + a[0 + 1..]) && AllPlain(b[..j] + b[j + 1..])
    ensures multiset(Texts(a[..0] + a[0 + 1..])) == multiset(Texts(b[..j] + b[j + 1..]))
  {
    hide Plain;
    assert Texts(a)[0] in multiset(Texts(b));
    j :| 0 <= j < |b| && Texts(b)[j] == Texts(a)[0];
    SameTextSameLabel(a, b, j);
    hide AllPlain;
    StillPlain(a, 0);
    StillPlain(b, j);
    MapWithout(Text, a, 0);
    MapWithout(Text, b, j);
  }

  lemma {:induction false} SameTextsSameLabels(a: seq<Label>, b: seq<Label>)
    requires AllPlain(a) && AllPlain(b)
    requires multiset(Texts(a)) == multiset(Texts(b))
    ensures multiset(a) == multiset(b)
    decreases |a|
  {
    if a == [] {
      assert |multiset(Texts(b))| == 0;
    } else {
      hide *;
      var j := SharedText(a, b);
      SameTextsSameLabels(a[..0] + a[0 + 1..], b[..j] + b[j + 1..]);
      RemoveAt(a, 0);
      RemoveAt(b, j);
      PutBack(multiset(a), multiset(b), a[0]);
    }
  }

  /** The key does not depend on the order of the labels. */
  lemma OrderDoesNotMatter(a: seq<Label>, b: seq<Label>)
    requires multiset(a) == multiset(b)
    ensures DependencyKey(a) == DependencyKey(b)
  {
    SameMapped(Text, a, b);
    SortedSame(Texts(a), Texts(b));
  }

  lemma TextsArePlain(ls: seq<Label>, x: string)
    requires AllPlain(ls)
    requires x in Texts(ls)
    ensures x != "" && ',' !in x
  {
    var i :| 0 <= i < |ls| && Texts(ls)[i] == x;
    assert ls[i] in ls;
    assert x == ls[i].name + ":" + ls[i].fingerprint;
  }

  /** For plain labels, equal keys mean equal labels, each as often. */
  lemma KeyTellsLabels(a: seq<Label>, b: seq<Label>)
    requires AllPlain(a) && AllPlain(b)
    ensures DependencyKey(a) == DependencyKey(b) <==> multiset(a) == multiset(b)
  {
    if multiset(a) == multiset(b) {
      OrderDoesNotMatter(a, b);
    }
    if DependencyKey(a) == DependencyKey(b) {
      var xs, ys := SortStrings(Texts(a)), SortStrings(Texts(b));
      forall x | x in xs ensures x != "" && ',' !in x {
        assert x in multiset(xs);
        TextsArePlain(a, x);
      }
      forall y | y in ys ensures y != "" && ',' !in y {
        assert y in multiset(ys);
        TextsArePlain(b, y);
      }
      JoinInjective(xs, ys);
      SameTextsSameLabels(a, b);
    }
  }

  /** A colon in a name: part of the name may as well belong to the fingerprint. */
  lemma ColonInName(x: string, y: string, z: string)
    ensures DependencyKey([Label(x + ":" + y, z)]) == DependencyKey([Label(x, y + ":" + z)])
  {
    assert (x + ":" + y) + ":" + z == x + ":" + (y + ":" + z);
    assert Texts([Label(x + ":" + y, z)]) == Texts([Label(x, y + ":" + z)]);
  }

  /** A comma in a fingerprint: one dependency may as well be two. */
  lemma CommaInFingerprint(x: string, u: string, y: string, v: string)
    requires Le(x + ":" + u, y + ":" + v)
    ensures DependencyKey([Label(x, u + "," + (y + ":" + v))]) == DependencyKey([Label(x, u), Label(y, v)])
  {
    hide DependencyKey, Le;
    var whole := Label(x, u + "," + (y + ":" + v));
    KeyOfOne(whole);
    KeyOfTwo(Label(x, u), Label(y, v));
    assert Text(whole) == (x + ":" + u) + "," + (y + ":" + v);
  }

  lemma KeyOfOne(l: Label)
    ensures DependencyKey([l]) == Text(l)
  {
    SortOne(Text(l));
    assert Texts([l]) == [Text(l)];
  }

  lemma KeyOfTwo(l: Label, m: Label)
    requires Le(Text(l), Text(m))
    ensures DependencyKey([l, m]) == Text(l) + "," + Text(m)
  {
    hide Le, Text, SortStrings, Join;
    SortTwo(Text(l), Text(m));
    assert Texts([l, m]) == [Text(l), Text(m)];
    JoinTwo(Text(l), Text(m));
  }

  lemma JoinTwo(x: string, y: string)
    ensures Join([x, y]) == x + "," + y
  {
    assert [x, y][1..] == [y];
  }

  lemma SortOne(x: string)
    ensures SortStrings([x]) == [x]
  {
    assert [x][1..] == [];
  }

  lemma SortTwo(x: string, y: string)
    requires Le(x, y)
    ensures SortStrings([x, y]) == [x, y]
  {
    SortOne(y);
    assert [x, y][1..] == [y];
  }
}
