/** The two pure list computations of the hooks: the filter `listPorts` applies to the ports the
    browser already granted, and the update `requestPort` applies to the list when the user
    picks a port. Both are JavaScript `Array.prototype.filter`, modelled once as `Filter`.

    A port is an object in the source and `!==` compares identities; here a port carries an
    identity number and its `getInfo()` record, so two ports are equal exactly when they are
    the same port. */
module PortList {
  import opened Strings

  /** A field of `getInfo()`: missing, a number or a string. */
  datatype Field = Absent | Num(n: int) | Text(s: string)

  /** JavaScript truthiness of such a field: a missing field, the number 0 and the empty string
      are falsy. */
  predicate Truthy(f: Field)
  {
    match f
    case Absent => false
    case Num(n) => n != 0
    case Text(s) => s != ""
  }

  /** The part of `port.getInfo()` the filter reads. */
  datatype PortInfo = PortInfo(usbVendorId: Field, bluetoothServiceClassId: Field)

  datatype Port = Port(id: nat, info: PortInfo)

  /** `xs.filter(keep)`: the elements `keep` accepts, in their order. */
  function Filter<T>(xs: seq<T>, keep: T -> bool): (r: seq<T>)
    ensures |r| <= |xs|
  {
    if |xs| == 0 then []
    else if keep(xs[0]) then [xs[0]] + Filter(xs[1..], keep)
    else Filter(xs[1..], keep)
  }

  /** `a` is `b` with some elements left out and the rest in their order. */
  predicate IsSubseq<T(==)>(a: seq<T>, b: seq<T>)
    decreases |b|
  {
    if |a| == 0 then true
    else if |b| == 0 then false
    else if a[0] == b[0] then IsSubseq(a[1..], b[1..])
    else IsSubseq(a, b[1..])
  }

  /** An element survives the filter exactly when it was there and is accepted. */
  lemma {:induction false} FilterMembers<T>(xs: seq<T>, keep: T -> bool, x: T)
    ensures x in Filter(xs, keep) <==> x in xs && keep(x)
    decreases |xs|
  {
    if |xs| > 0 {
      FilterMembers(xs[1..], keep, x);
      assert xs == [xs[0]] + xs[1..];
    }
  }

  /** An accepted element keeps its number of occurrences; a rejected one has none left. */
  lemma {:induction false} FilterCount<T>(xs: seq<T>, keep: T -> bool, x: T)
    ensures multiset(Filter(xs, keep))[x] == if keep(x) then multiset(xs)[x] else 0
    decreases |xs|
  {
    if |xs| > 0 {
      FilterCount(xs[1..], keep, x);
      assert xs == [xs[0]] + xs[1..];
      assert multiset(xs) == multiset([xs[0]]) + multiset(xs[1..]);
      if keep(xs[0]) {
        assert multiset(Filter(xs, keep)) == multiset([xs[0]]) + multiset(Filter(xs[1..], keep));
      }
    }
  }

  /** The filter keeps the order of what it keeps. */
  lemma {:induction false} FilterKeepsOrder<T>(xs: seq<T>, keep: T -> bool)
    ensures IsSubseq(Filter(xs, keep), xs)
    decreases |xs|
  {
    if |xs| > 0 {
      var r := Filter(xs, keep);
      FilterKeepsOrder(xs[1..], keep);
      if keep(xs[0]) {
        assert r[1..] == Filter(xs[1..], keep);
      } else if |r| > 0 {
        FilterMembers(xs[1..], keep, r[0]);
        assert r[0] != xs[0];
      }
    }
  }

  /** Filtering twice with the same test is filtering once. */
  lemma {:induction false} FilterTwice<T>(xs: seq<T>, keep: T -> bool)
    ensures Filter(Filter(xs, keep), keep) == Filter(xs, keep)
    decreases |xs|
  {
    if |xs| > 0 {
      FilterTwice(xs[1..], keep);
      if keep(xs[0]) {
        assert ([xs[0]] + Filter(xs[1..], keep))[1..] == Filter(xs[1..], keep);
      }
    }
  }

  /** The `listPorts` test, as written: keep a port without a vendor id, or with a vendor id and
      no Bluetooth service class. */
  function KeepPort(info: PortInfo): (keep: bool)
    ensures keep <==> !(Truthy(info.usbVendorId) && Truthy(info.bluetoothServiceClassId))
  {
    !Truthy(info.usbVendorId)
      || (Truthy(info.usbVendorId) && !Truthy(info.bluetoothServiceClassId))
  }

  /** The ports `listPorts` stores: the granted ports that do not report both a USB vendor id
      and a Bluetooth service class. */
  function ListedPorts(available: seq<Port>): (r: seq<Port>)
    ensures |r| <= |available|
  {
    Filter(available, (p: Port) => KeepPort(p.info))
  }

  /** A port is listed exactly when it was granted and does not report both ids, as often as
      it was granted, and the listed ports keep the browser's order. */
  lemma {:induction false} ListedPortsSpec(available: seq<Port>, p: Port)
    ensures p in ListedPorts(available) <==>
            p in available && !(Truthy(p.info.usbVendorId) && Truthy(p.info.bluetoothServiceClassId))
    ensures multiset(ListedPorts(available))[p] ==
            if KeepPort(p.info) then multiset(available)[p] else 0
    ensures IsSubseq(ListedPorts(available), available)
  {
    FilterMembers(available, (q: Port) => KeepPort(q.info), p);
    FilterCount(available, (q: Port) => KeepPort(q.info), p);
    FilterKeepsOrder(available, (q: Port) => KeepPort(q.info));
  }

  /** Listing the listed ports again changes nothing. */
  lemma {:induction false} ListedPortsStable(available: seq<Port>)
    ensures ListedPorts(ListedPorts(available)) == ListedPorts(available)
  {
    FilterTwice(available, (q: Port) => KeepPort(q.info));
  }

  /** `prev.filter(q => q !== p)`. */
  function Without(prev: seq<Port>, p: Port): (r: seq<Port>)
    ensures |r| <= |prev|
    ensures p !in r
  {
    FilterMembers(prev, (q: Port) => q != p, p);
    Filter(prev, (q: Port) => q != p)
  }

  /** The list after `requestPort` picks `p`: every earlier occurrence of `p` removed and `p`
      appended. */
  function WithRequested(prev: seq<Port>, p: Port): (r: seq<Port>)
    ensures |r| > 0 && r[|r| - 1] == p
    ensures r[..|r| - 1] == Without(prev, p)
  {
    var r := Without(prev, p) + [p];
    assert r[..|r| - 1] == Without(prev, p);
    r
  }

  /** After `requestPort`, `p` is in the list exactly once, at the end; every other port occurs
      as often as before and in the same order. */
  lemma {:induction false} RequestedOnce(prev: seq<Port>, p: Port, q: Port)
    ensures multiset(WithRequested(prev, p))[p] == 1
    ensures p !in WithRequested(prev, p)[..|WithRequested(prev, p)| - 1]
    ensures q != p ==> multiset(WithRequested(prev, p))[q] == multiset(prev)[q]
    ensures IsSubseq(WithRequested(prev, p)[..|WithRequested(prev, p)| - 1], prev)
  {
    var keep := (x: Port) => x != p;
    var w := Without(prev, p);
    assert WithRequested(prev, p) == w + [p];
    assert multiset(w + [p]) == multiset(w) + multiset{p};
    FilterCount(prev, keep, p);
    FilterCount(prev, keep, q);
    FilterMembers(prev, keep, p);
    FilterKeepsOrder(prev, keep);
  }

  /** Picking the same port twice leaves the list as picking it once. */
  lemma {:induction false} RequestedTwice(prev: seq<Port>, p: Port)
    ensures WithRequested(WithRequested(prev, p), p) == WithRequested(prev, p)
  {
    var keep := (x: Port) => x != p;
    var w := Without(prev, p);
    FilterAppend(w, [p], keep);
    FilterTwice(prev, keep);
    assert Filter([p], keep) == [];
    SeqNil(w);
  }

  lemma {:induction false} FilterAppend<T>(a: seq<T>, b: seq<T>, keep: T -> bool)
    ensures Filter(a + b, keep) == Filter(a, keep) + Filter(b, keep)
    decreases |a|
  {
    if |a| == 0 {
      assert a + b == b;
    } else {
      assert (a + b)[0] == a[0];
      assert (a + b)[1..] == a[1..] + b;
      FilterAppend(a[1..], b, keep);
    }
  }
}
