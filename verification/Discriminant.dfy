/** The owner discriminant: a rendering of owner labels that keys the cache of immutable submissions. */
module Discriminant {
  // ---------- the order of strings ----------

  /** Lexicographic order. */
  predicate Leq(a: string, b: string) {
    || a == ""
    || (b != "" && (a[0] < b[0] || (a[0] == b[0] && Leq(a[1..], b[1..]))))
  }

  lemma {:induction false} LeqTotal(a: string, b: string)
    ensures Leq(a, b) || Leq(b, a)
    ensures Leq(a, b) && Leq(b, a) ==> a == b
  {
    if a != "" && b != "" && a[0] == b[0] {
      LeqTotal(a[1..], b[1..]);
      assert a == [a[0]] + a[1..] && b == [b[0]] + b[1..];
    }
  }

  lemma {:induction false} LeqTransitive(a: string, b: string, c: string)
    requires Leq(a, b) && Leq(b, c)
    ensures Leq(a, c)
  {
    if a != "" && a[0] == b[0] && b[0] == c[0] {
      LeqTransitive(a[1..], b[1..], c[1..]);
    }
  }

  /** At the first difference the smaller character comes first, and a prefix comes before what it begins. */
  lemma {:induction false} LeqExactly(a: string, b: string)
    ensures Leq(a, b)
            <==> a <= b || exists i :: 0 <= i < |a| && i < |b| && a[..i] == b[..i] && a[i] < b[i]
  {
    if a != "" && b != "" && a[0] == b[0] {
      var x, y := a[1..], b[1..];
      LeqExactly(x, y);
      assert a == [a[0]] + x && b == [b[0]] + y;
      assert a <= b <==> x <= y;
      if i :| 0 <= i < |x| && i < |y| && x[..i] == y[..i] && x[i] < y[i] {
        assert a[..i + 1] == [a[0]] + x[..i] && b[..i + 1] == [b[0]] + y[..i];
        assert a[i + 1] < b[i + 1];
      }
      if i :| 0 <= i < |a| && i < |b| && a[..i] == b[..i] && a[i] < b[i] {
        assert a[..i][1..] == x[..i - 1] && b[..i][1..] == y[..i - 1];
        assert x[i - 1] < y[i - 1];
      }
    }
  }

  /** Strictly increasing. */
  ghost predicate Increasing(keys: seq<string>) {
    forall i, j :: 0 <= i < j < |keys| ==> Leq(keys[i], keys[j]) && keys[i] != keys[j]
  }

  /** There is one way to write a set in increasing order. */
  lemma {:induction false} IncreasingIsUnique(a: seq<string>, b: seq<string>)
    requires Increasing(a) && Increasing(b) && forall k :: k in a <==> k in b
    ensures a == b
  {
    SomeMember(b);
    if a != [] {
      assert a[0] in a && a[0] in b;
      assert b[0] in b;
      SameHead(a, b);
      forall k ensures k in a[1..] <==> k in b[1..] {
        TailMembers(a, k);
        TailMembers(b, k);
      }
      IncreasingIsUnique(a[1..], b[1..]);
      assert a == [a[0]] + a[1..] && b == [b[0]] + b[1..];
    }
  }

  lemma SomeMember(a: seq<string>)
    ensures a != [] ==> exists k :: k in a
  {
    assert a != [] ==> a[0] in a;
  }

  lemma SameHead(a: seq<string>, b: seq<string>)
    requires Increasing(a) && Increasing(b) && a != [] && b != [] && a[0] in b && b[0] in a
    ensures a[0] == b[0]
  {
    LeqTotal(a[0], b[0]);
  }

  lemma TailMembers(a: seq<string>, k: string)
    requires a != [] && Increasing(a)
    ensures k in a[1..] <==> k in a && k != a[0]
  {
    if k in a && k != a[0] {
      var i :| 0 <= i < |a| && a[i] == k;
      assert a[1..][i - 1] == k;
    }
  }

  // ---------- rendering ----------

  function Piece(k: string, v: string): string {
    "{" + k + ":" + v + "}"
  }

  function Render(keys: seq<string>, labels: map<string, string>): string
    requires forall k :: k in keys ==> k in labels
  {
    if keys == [] then "" else Piece(keys[0], labels[keys[0]]) + Render(keys[1..], labels)
  }

  /** Insertion into an increasing sequence. */
  function Insert(keys: seq<string>, k: string): (r: seq<string>)
    requires Increasing(keys) && k !in keys
    ensures Increasing(r)
    ensures forall x :: x in r <==> x == k || x in keys
  {
    if keys == [] then [k]
    else if Leq(k, keys[0]) then
      InsertInFront(keys, k);
      [k] + keys
    else
      var rest := Insert(keys[1..], k);
      InsertBehind(keys, k, rest);
      [keys[0]] + rest
  }

  lemma InsertInFront(keys: seq<string>, k: string)
    requires keys != [] && Increasing(keys) && k !in keys && Leq(k, keys[0])
    ensures Increasing([k] + keys)
  {
    forall i | 0 <= i < |keys| ensures Leq(k, keys[i]) && k != keys[i] {
      assert keys[i] in keys;
      if i > 0 {
        LeqTransitive(k, keys[0], keys[i]);
      }
    }
  }

  lemma InsertBehind(keys: seq<string>, k: string, rest: seq<string>)
    requires keys != [] && Increasing(keys) && k !in keys && !Leq(k, keys[0])
    requires Increasing(rest) && forall x :: x in rest <==> x == k || x in keys[1..]
    ensures Increasing([keys[0]] + rest)
    ensures forall x :: x in [keys[0]] + rest <==> x == k || x in keys
  {
    LeqTotal(k, keys[0]);
    forall i | 0 <= i < |rest| ensures Leq(keys[0], rest[i]) && keys[0] != rest[i] {
      assert rest[i] in rest;
      TailMembers(keys, rest[i]);
      if rest[i] != k {
        var j :| 0 <= j < |keys| && keys[j] == rest[i];
      }
    }
    forall x ensures x in [keys[0]] + rest <==> x == k || x in keys {
      TailMembers(keys, x);
    }
  }

  /** The keys in increasing order render to the discriminant. */
  ghost predicate IsDiscriminant(labels: map<string, string>, d: string) {
    exists keys :: Increasing(keys) && (forall k :: k in keys <==> k in labels) && d == Render(keys, labels)
  }

  /** The keys, met in any order, sorted. */
  method SortedKeys(labels: map<string, string>) returns (keys: seq<string>)
    ensures Increasing(keys) && forall k :: k in keys <==> k in labels
  {
    hide Increasing;
    NoKeys();
    keys := [];
    var remaining := labels.Keys;
    while remaining != {}
      invariant remaining <= labels.Keys && Increasing(keys)
      invariant forall k :: k in keys <==> k in labels.Keys - remaining
      decreases |remaining|
    {
      var k :| k in remaining;
      keys := Insert(keys, k);
      remaining := remaining - {k};
    }
  }

  lemma NoKeys()
    ensures Increasing([])
  {
  }

  /** Map iteration order is arbitrary; the result does not depend on it. */
  method BuildOwnerDiscriminant(labels: map<string, string>) returns (d: string)
    ensures IsDiscriminant(labels, d)
  {
    hide Increasing, Piece;
    var keys := SortedKeys(labels);
    d := "";
    for i := 0 to |keys|
      invariant forall k :: k in keys ==> k in labels
      invariant d + Render(keys[i..], labels) == Render(keys, labels)
    {
      assert keys[i] in keys;
      assert keys[i..][1..] == keys[i + 1..] && keys[i..][0] == keys[i];
      var piece := Piece(keys[i], labels[keys[i]]);
      assert d + (piece + Render(keys[i + 1..], labels)) == d + piece + Render(keys[i + 1..], labels);
      d := d + piece;
    }
    assert d + "" == d;
  }

  /** The discriminant is canonical: a map has exactly one. */
  lemma OneDiscriminant(labels: map<string, string>, d: string, e: string)
    requires IsDiscriminant(labels, d) && IsDiscriminant(labels, e)
    ensures d == e
  {
    var a :| Increasing(a) && (forall k :: k in a <==> k in labels) && d == Render(a, labels);
    var b :| Increasing(b) && (forall k :: k in b <==> k in labels) && e == Render(b, labels);
    IncreasingIsUnique(a, b);
  }

  // ---------- injectivity ----------

  /** No brace and no colon, as in every valid label key and value. */
  predicate Plain(s: string) {
    forall i :: 0 <= i < |s| ==> s[i] !in {'{', '}', ':'}
  }

  ghost predicate PlainLabels(labels: map<string, string>) {
    forall k :: k in labels ==> Plain(k) && Plain(labels[k])
  }

  /** The first delimiter ends a plain prefix. */
  lemma {:induction false} SplitAt(a: string, x: string, b: string, y: string, c: char)
    requires Plain(a) && Plain(b) && c in {'}', ':'} && a + [c] + x == b + [c] + y
    ensures a == b && x == y
  {
    var s, t := a + [c] + x, b + [c] + y;
    if a == "" || b == "" {
      assert s[0] == t[0];
      assert a == b == "";
      assert x == s[1..] && y == t[1..];
    } else {
      assert s[0] == a[0] && t[0] == b[0];
      assert s[1..] == a[1..] + [c] + x && t[1..] == b[1..] + [c] + y;
      SplitAt(a[1..], x, b[1..], y, c);
      assert a == [a[0]] + a[1..] && b == [b[0]] + b[1..];
    }
  }

  lemma PieceSplits(k: string, v: string, x: string, l: string, u: string, y: string)
    requires Plain(k) && Plain(v) && Plain(l) && Plain(u)
    requires Piece(k, v) + x == Piece(l, u) + y
    ensures k == l && v == u && x == y
  {
    var s, t := Piece(k, v) + x, Piece(l, u) + y;
    assert s[1..] == k + [':'] + (v + ['}'] + x);
    assert t[1..] == l + [':'] + (u + ['}'] + y);
    SplitAt(k, v + ['}'] + x, l, u + ['}'] + y, ':');
    SplitAt(v, x, u, y, '}');
  }

  lemma {:induction false} RenderInjective(a: seq<string>, m: map<string, string>, b: seq<string>,
                                           n: map<string, string>)
    requires forall k :: k in a ==> k in m && Plain(k) && Plain(m[k])
    requires forall k :: k in b ==> k in n && Plain(k) && Plain(n[k])
    requires Render(a, m) == Render(b, n)
    ensures a == b && forall k :: k in a ==> m[k] == n[k]
  {
    if a != [] && b != [] {
      assert a[0] in a && b[0] in b;
      PieceSplits(a[0], m[a[0]], Render(a[1..], m), b[0], n[b[0]], Render(b[1..], n));
      RenderInjective(a[1..], m, b[1..], n);
      assert a == [a[0]] + a[1..] && b == [b[0]] + b[1..];
    }
  }

  /** Plain label maps have equal discriminants only if they are equal. */
  lemma DiscriminantInjective(m: map<string, string>, n: map<string, string>, d: string)
    requires PlainLabels(m) && PlainLabels(n) && IsDiscriminant(m, d) && IsDiscriminant(n, d)
    ensures m == n
  {
    hide Increasing, Render, Plain;
    var a :| Increasing(a) && (forall k :: k in a <==> k in m) && d == Render(a, m);
    var b :| Increasing(b) && (forall k :: k in b <==> k in n) && d == Render(b, n);
    RenderInjective(a, m, b, n);
    assert forall k :: k in m <==> k in n;
    assert forall k :: k in m ==> k in a && m[k] == n[k];
  }

  /** A value that spells out the next pair collides with the map that has that pair. */
  lemma DelimitersCollide(a: string, b: string, c: string, d: string)
    requires a != c && Leq(a, c)
    ensures var m, n := map[a := b + "}{" + c + ":" + d], map[a := b, c := d];
            m != n && exists x :: IsDiscriminant(m, x) && IsDiscriminant(n, x)
  {
    hide Leq;
    var m, n := map[a := b + "}{" + c + ":" + d], map[a := b, c := d];
    assert c in n && c !in m;
    RenderOne(a, m);
    RenderOne(c, n);
    RenderTwo(a, c, n);
    assert Piece(a, m[a]) == Piece(a, b) + Piece(c, d);
    assert Increasing([a]) && forall k :: k in [a] <==> k in m;
    assert Increasing([a, c]) && forall k :: k in [a, c] <==> k in n;
    assert IsDiscriminant(m, Piece(a, m[a])) && IsDiscriminant(n, Piece(a, m[a]));
  }

  lemma RenderOne(a: string, labels: map<string, string>)
    requires a in labels
    ensures Render([a], labels) == Piece(a, labels[a])
  {
    hide Piece;
    assert [a][1..] == [];
    assert Piece(a, labels[a]) + "" == Piece(a, labels[a]);
  }

  lemma RenderTwo(a: string, c: string, labels: map<string, string>)
    requires a in labels && c in labels
    ensures Render([a, c], labels) == Piece(a, labels[a]) + Piece(c, labels[c])
  {
    hide Piece;
    assert [a, c][1..] == [c];
    RenderOne(c, labels);
  }
}
