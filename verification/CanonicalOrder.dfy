/** The key order of DAG-CBOR maps (`CanonicalMap` of `plc.rs`): shorter keys first, then bytewise. */
module CanonicalOrder {
  type Key = string

  /** Bytewise. */
  predicate ByteLess(a: Key, b: Key)
    decreases |a|
  {
    b != "" && (a == "" || a[0] < b[0] || (a[0] == b[0] && ByteLess(a[1..], b[1..])))
  }

  predicate Less(a: Key, b: Key) {
    |a| < |b| || (|a| == |b| && ByteLess(a, b))
  }

  lemma {:induction false} ByteLessTotal(a: Key, b: Key)
    ensures ByteLess(a, b) || ByteLess(b, a) || a == b
    ensures !(ByteLess(a, b) && ByteLess(b, a)) && !ByteLess(a, a)
    decreases |a|
  {
    if a != "" && b != "" {
      ByteLessTotal(a[1..], b[1..]);
      assert a[0] == b[0] && a[1..] == b[1..] ==> a == b by {
        assert a == [a[0]] + a[1..] && b == [b[0]] + b[1..];
      }
    }
    if a != "" {
      ByteLessTotal(a[1..], a[1..]);
    }
  }

  lemma {:induction false} ByteLessTransitive(a: Key, b: Key, c: Key)
    requires ByteLess(a, b) && ByteLess(b, c)
    ensures ByteLess(a, c)
    decreases |a|
  {
    if a != "" && a[0] == b[0] && b[0] == c[0] {
      ByteLessTransitive(a[1..], b[1..], c[1..]);
    }
  }

  lemma LessTotal(a: Key, b: Key)
    ensures Less(a, b) || Less(b, a) || a == b
    ensures !(Less(a, b) && Less(b, a)) && !Less(a, a)
  {
    ByteLessTotal(a, b);
    ByteLessTotal(a, a);
  }

  lemma LessTransitive(a: Key, b: Key, c: Key)
    requires Less(a, b) && Less(b, c)
    ensures Less(a, c)
  {
    if |a| == |b| == |c| {
      ByteLessTransitive(a, b, c);
    }
  }

  predicate Ascending(keys: seq<Key>) {
    forall i, j :: 0 <= i < j < |keys| ==> Less(keys[i], keys[j])
  }

  /** Strictly ascending, and of just these keys. */
  ghost predicate Orders(keys: seq<Key>, s: set<Key>) {
    Ascending(keys) && forall k :: k in keys <==> k in s
  }

  /** A set of keys has one canonical order. */
  lemma {:induction false} OrderIsUnique(a: seq<Key>, b: seq<Key>, s: set<Key>)
    requires Orders(a, s) && Orders(b, s)
    ensures a == b
    decreases |a|
  {
    hide Less;
    EmptyOrder(a, s);
    EmptyOrder(b, s);
    if a != [] {
      assert a[0] in a;
      assert b[0] in b;
      FirstIsLeast(a, b[0]);
      FirstIsLeast(b, a[0]);
      LessTotal(a[0], b[0]);
      RestOrders(a, s);
      RestOrders(b, s);
      OrderIsUnique(a[1..], b[1..], s - {a[0]});
      assert a == [a[0]] + a[1..] && b == [b[0]] + b[1..];
    }
  }

  lemma EmptyOrder(keys: seq<Key>, s: set<Key>)
    requires Orders(keys, s)
    ensures keys == [] <==> s == {}
  {
    if keys != [] {
      assert keys[0] in keys;
    }
  }

  lemma FirstIsLeast(keys: seq<Key>, k: Key)
    requires Ascending(keys) && k in keys
    ensures k == keys[0] || Less(keys[0], k)
  {}

  lemma RestOrders(keys: seq<Key>, s: set<Key>)
    requires Orders(keys, s) && keys != []
    ensures Orders(keys[1..], s - {keys[0]})
  {
    hide Less;
    var rest := keys[1..];
    assert forall i :: 0 <= i < |rest| ==> rest[i] == keys[i + 1];
    forall k ensures k in rest <==> k in s - {keys[0]} {
      if k in rest {
        var i :| 0 <= i < |rest| && rest[i] == k;
        LessTotal(keys[0], keys[i + 1]);
        assert keys[i + 1] in keys;
      }
      if k in s && k != keys[0] {
        assert k in keys;
      }
    }
  }

  // ---- sorting ----

  /** Puts a key where it belongs in an ascending list. */
  method Insert(keys: seq<Key>, k: Key) returns (r: seq<Key>)
    requires Ascending(keys) && k !in keys
    ensures Ascending(r) && forall x :: x in r <==> x in keys || x == k
  {
    hide Less;
    var i := |keys|;
    while i > 0 && Less(k, keys[i - 1])
      invariant 0 <= i <= |keys| && forall j :: i <= j < |keys| ==> Less(k, keys[j])
    {
      i := i - 1;
    }
    r := keys[..i] + [k] + keys[i..];
    forall j | 0 <= j < i ensures Less(keys[j], k) {
      LessTotal(keys[i - 1], k);
      assert keys[i - 1] in keys;
      if j < i - 1 {
        LessTransitive(keys[j], keys[i - 1], k);
      }
    }
    assert keys == keys[..i] + keys[i..];
  }

  /** `sort_by`, whatever order the entries come in. */
  method Sort(entries: seq<Key>) returns (keys: seq<Key>)
    requires forall i, j :: 0 <= i < j < |entries| ==> entries[i] != entries[j]
    ensures Orders(keys, set k | k in entries)
  {
    keys := [];
    for i := 0 to |entries|
      invariant Ascending(keys) && forall k :: k in keys <==> k in entries[..i]
    {
      assert entries[i] !in entries[..i];
      keys := Insert(keys, entries[i]);
      assert entries[..i + 1] == entries[..i] + [entries[i]];
    }
    assert entries[..|entries|] == entries;
  }

  lemma {:induction false} OrderOf(s: set<Key>) returns (keys: seq<Key>)
    ensures Orders(keys, s)
    decreases |s|
  {
    if s == {} {
      keys := [];
    } else {
      var k := Greatest(s);
      var init := OrderOf(s - {k});
      keys := init + [k];
      forall i | 0 <= i < |init| ensures Less(init[i], k) {
        assert init[i] in init;
      }
    }
  }

  lemma {:induction false} Greatest(s: set<Key>) returns (g: Key)
    requires s != {}
    ensures g in s && forall k :: k in s && k != g ==> Less(k, g)
    decreases |s|
  {
    hide Less;
    g :| g in s;
    if s != {g} {
      var h := Greatest(s - {g});
      LessTotal(g, h);
      if Less(g, h) {
        g := h;
      } else {
        forall k | k in s && k != g ensures Less(k, g) {
          if k != h {
            LessTransitive(k, h, g);
          }
        }
      }
    }
  }

  lemma OrderExists(s: set<Key>)
    ensures exists keys :: Orders(keys, s)
  {
    var keys := OrderOf(s);
  }

  /** The keys of a map in canonical order. */
  ghost function Canonical(s: set<Key>): (keys: seq<Key>)
    ensures Orders(keys, s)
  {
    OrderExists(s);
    var keys :| Orders(keys, s);
    keys
  }

  lemma CanonicalIff(keys: seq<Key>, s: set<Key>)
    ensures Orders(keys, s) <==> keys == Canonical(s)
  {
    if Orders(keys, s) {
      OrderIsUnique(keys, Canonical(s), s);
    }
  }
}
