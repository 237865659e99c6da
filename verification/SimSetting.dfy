/** `SimSetting` of sim-setting.h: the port speeds and the window bound, written to a file and read back, on a
    little-endian machine. */
module SimSettings {
  import opened Memory
  import opened Digraphs

  type Speeds = map<U16, map<Byte, U64>>

  datatype Entry = Entry(node: U16, intf: Byte, bps: U64)

  // ----- Iterating over the nested map -----

  /** The order in which the two nested unordered maps are iterated over: the nodes, each with its ports. */
  type Order = seq<(U16, seq<Byte>)>

  ghost predicate Orders(order: Order, m: Speeds) {
    && (forall i, j :: 0 <= i < j < |order| ==> order[i].0 != order[j].0)
    && (forall i :: 0 <= i < |order| ==> OrdersPorts(order[i].1, m, order[i].0))
    && (forall n :: n in m ==> exists i :: 0 <= i < |order| && order[i].0 == n)
  }

  ghost predicate OrdersPorts(ports: seq<Byte>, m: Speeds, node: U16) {
    node in m && Distinct(ports) && forall p :: p in ports <==> p in m[node]
  }

  predicate Present(ports: seq<Byte>, speeds: map<Byte, U64>) {
    forall i :: 0 <= i < |ports| ==> ports[i] in speeds
  }

  predicate AllPresent(order: Order, m: Speeds) {
    forall i :: 0 <= i < |order| ==> order[i].0 in m && Present(order[i].1, m[order[i].0])
  }

  lemma OrdersPresent(order: Order, m: Speeds)
    requires Orders(order, m)
    ensures AllPresent(order, m)
  {
    forall i | 0 <= i < |order|
      ensures order[i].0 in m && Present(order[i].1, m[order[i].0])
    {
      assert OrdersPorts(order[i].1, m, order[i].0);
    }
  }

  function Row(node: U16, ports: seq<Byte>, speeds: map<Byte, U64>): (row: seq<Entry>)
    requires Present(ports, speeds)
    ensures |row| == |ports|
    ensures forall i :: 0 <= i < |ports| ==> row[i] == Entry(node, ports[i], speeds[ports[i]])
  {
    if ports == [] then []
    else
      var n := |ports| - 1;
      Row(node, ports[..n], speeds) + [Entry(node, ports[n], speeds[ports[n]])]
  }

  function Entries(order: Order, m: Speeds): seq<Entry>
    requires AllPresent(order, m)
  {
    if order == [] then []
    else
      var n := |order| - 1;
      Entries(order[..n], m) + Row(order[n].0, order[n].1, m[order[n].0])
  }

  /** There are never so many entries that their 32-bit count wraps around. */
  lemma FewEntries(order: Order, m: Speeds)
    requires Orders(order, m) && AllPresent(order, m)
    ensures |Entries(order, m)| <= 65536 * 256
  {
    forall i | 0 <= i < |order|
      ensures |order[i].1| <= 256
    {
      assert OrdersPorts(order[i].1, m, order[i].0);
      FewBelow(order[i].1, 256);
    }
    FewBelow(seq(|order|, i requires 0 <= i < |order| => order[i].0), 65536);
    RowsBounded(order, m);
  }

  ghost function Below(n: nat): (r: set<int>)
    ensures |r| == n && forall x :: x in r <==> 0 <= x < n
  {
    if n == 0 then {} else Below(n - 1) + {n - 1}
  }

  /** There are at most n different numbers below n. */
  lemma FewBelow(s: seq<int>, n: nat)
    requires forall i, j :: 0 <= i < j < |s| ==> s[i] != s[j]
    requires forall i :: 0 <= i < |s| ==> 0 <= s[i] < n
    ensures |s| <= n
  {
    DistinctBound(s, Below(n));
  }

  lemma {:induction false} RowsBounded(order: Order, m: Speeds)
    requires AllPresent(order, m) && forall i :: 0 <= i < |order| ==> |order[i].1| <= 256
    ensures |Entries(order, m)| <= |order| * 256
  {
    if order != [] {
      RowsBounded(order[..|order| - 1], m);
    }
  }

  function PortsUpTo(order: Order, a: nat): nat
    requires a <= |order|
  {
    if a == 0 then 0 else PortsUpTo(order, a - 1) + |order[a - 1].1|
  }

  lemma NoPorts(order: Order)
    ensures PortsUpTo(order, 0) == 0
  {
  }

  lemma NextPorts(order: Order, a: nat)
    requires a < |order|
    ensures PortsUpTo(order, a + 1) == PortsUpTo(order, a) + |order[a].1|
  {
  }

  lemma {:induction false} TotalPorts(order: Order, m: Speeds)
    requires AllPresent(order, m)
    ensures PortsUpTo(order, |order|) == |Entries(order, m)|
  {
    if order != [] {
      var n := |order| - 1;
      TotalPorts(order[..n], m);
      PortsOfPrefix(order, n, n);
    }
  }

  lemma {:induction false} PortsOfPrefix(order: Order, n: nat, a: nat)
    requires a <= n <= |order|
    ensures PortsUpTo(order[..n], a) == PortsUpTo(order, a)
  {
    if a > 0 {
      PortsOfPrefix(order, n, a - 1);
    }
  }

  // ----- What is written -----

  function EntryBytes(e: Entry): (b: seq<Byte>)
    ensures |b| == 11
  {
    Store(e.node, 2) + (Store(e.intf, 1) + Store(e.bps, 8))
  }

  function EntriesBytes(entries: seq<Entry>): (b: seq<Byte>)
    ensures |b| == 11 * |entries|
  {
    if entries == [] then []
    else EntriesBytes(entries[..|entries| - 1]) + EntryBytes(entries[|entries| - 1])
  }

  /** The number of entries, the entries, the window. */
  function Image(entries: seq<Entry>, win: U32): seq<Byte> {
    Store(|entries|, 4) + (EntriesBytes(entries) + Store(win, 4))
  }

  lemma {:induction false} EntriesBytesAppend(a: seq<Entry>, b: seq<Entry>)
    ensures EntriesBytes(a + b) == EntriesBytes(a) + EntriesBytes(b)
  {
    if b == [] {
      assert a + b == a;
    } else {
      var n := |b| - 1;
      assert (a + b)[..|a| + n] == a + b[..n];
      EntriesBytesAppend(a, b[..n]);
    }
  }

  /** Byte k of a stored number is its k-th digit to the base 256, the lowest first. */
  lemma {:induction false} StoredByte(n: nat, width: nat, k: nat)
    requires k < width
    ensures Store(n, width)[k] == (n / Pow256(k)) % 256
  {
    if k > 0 {
      StoredByte(n / 256, width - 1, k - 1);
      DivDiv(n, Pow256(k - 1));
    }
  }

  lemma DivDiv(n: nat, d: nat)
    requires d > 0
    ensures 256 * d > 0 && (n / 256) / d == n / (256 * d)
  {
    var q, a := n / 256 / d, n / 256 % d;
    var low := n % 256;
    assert n / 256 == d * q + a;
    assert n == 256 * (d * q + a) + low;
    assert n == (256 * d) * q + (256 * a + low);
    assert 256 * a + low < 256 * d;
    Quotient(n, 256 * d, q, 256 * a + low);
  }

  lemma Quotient(n: nat, d: nat, q: nat, rest: nat)
    requires n == d * q + rest && rest < d
    ensures n / d == q
  {
    assert d * (n / d) + n % d == n;
    assert d * (n / d - q) == rest - n % d;
    SmallMultiple(d, n / d - q);
  }

  lemma SmallMultiple(d: nat, x: int)
    requires 0 - d < d * x < d
    ensures x == 0
  {
  }

  /** An entry is the node in two bytes, the port in one, the speed in eight, the low byte of each first. */
  lemma EntryLayout(e: Entry)
    ensures var b := EntryBytes(e);
            && b[0] == e.node % 256 && b[1] == e.node / 256 && b[2] == e.intf
            && forall k :: 0 <= k < 8 ==> b[3 + k] == (e.bps / Pow256(k)) % 256
  {
    StoredByte(e.node, 2, 0);
    StoredByte(e.node, 2, 1);
    StoredByte(e.intf, 1, 0);
    forall k | 0 <= k < 8
      ensures EntryBytes(e)[3 + k] == (e.bps / Pow256(k)) % 256
    {
      StoredByte(e.bps, 8, k);
    }
    assert Pow256(0) == 1 && Pow256(1) == 256;
  }

  /** Entry i fills the eleven bytes from 4 + 11 * i on; the count stands before all of them, the window behind. */
  lemma ImageLayout(entries: seq<Entry>, win: U32)
    ensures var b, n := Image(entries, win), |entries|;
            && |b| == 8 + 11 * n
            && (forall i :: 0 <= i < n ==> b[4 + 11 * i..15 + 11 * i] == EntryBytes(entries[i]))
            && (forall k :: 0 <= k < 4 ==> b[k] == (n / Pow256(k)) % 256)
            && (forall k :: 0 <= k < 4 ==> b[4 + 11 * n + k] == (win / Pow256(k)) % 256)
  {
    hide Store, EntriesBytes, EntryBytes;
    var b, n, c := Image(entries, win), |entries|, EntriesBytes(entries);
    forall i | 0 <= i < n
      ensures b[4 + 11 * i..15 + 11 * i] == EntryBytes(entries[i])
    {
      EntryPlace(entries, i);
      assert b[4 + 11 * i..15 + 11 * i] == c[11 * i..11 * i + 11];
    }
    forall k | 0 <= k < 4
      ensures b[k] == (n / Pow256(k)) % 256 && b[4 + 11 * n + k] == (win / Pow256(k)) % 256
    {
      StoredByte(n, 4, k);
      StoredByte(win, 4, k);
    }
  }

  lemma {:induction false} EntryPlace(entries: seq<Entry>, i: nat)
    requires i < |entries|
    ensures EntriesBytes(entries)[11 * i..11 * i + 11] == EntryBytes(entries[i])
  {
    hide EntryBytes;
    var n := |entries| - 1;
    if i < n {
      EntryPlace(entries[..n], i);
      var c := EntriesBytes(entries[..n]);
      assert EntriesBytes(entries)[11 * i..11 * i + 11] == c[11 * i..11 * i + 11];
    }
  }

  // ----- What is read -----

  lemma {:induction false} LoadBound(r: seq<Byte>, offset: nat, width: nat)
    requires offset + width <= |r|
    ensures Load(r, offset, width) < Pow256(width)
    decreases width
  {
    if width > 0 {
      LoadBound(r, offset + 1, width - 1);
    }
  }

  lemma Widths()
    ensures Pow256(1) == 256 && Pow256(2) == 65536 && Pow256(4) == 4294967296 && Pow256(8) == 18446744073709551616
  {
    assert Pow256(0) == 1 && Pow256(3) == 16777216;
    assert Pow256(5) == 1099511627776 && Pow256(6) == 281474976710656 && Pow256(7) == 72057594037927936;
  }

  function EntryAt(r: seq<Byte>, offset: nat): Entry
    requires offset + 11 <= |r|
  {
    Widths();
    LoadBound(r, offset, 2);
    LoadBound(r, offset + 2, 1);
    LoadBound(r, offset + 3, 8);
    Entry(Load(r, offset, 2), Load(r, offset + 2, 1), Load(r, offset + 3, 8))
  }

  function EntriesAt(r: seq<Byte>, offset: nat, n: nat): (entries: seq<Entry>)
    requires offset + 11 * n <= |r|
  {
    if n == 0 then [] else EntriesAt(r, offset, n - 1) + [EntryAt(r, offset + 11 * (n - 1))]
  }

  /** From this offset on there is a count and, for that many entries and a window, enough bytes. */
  predicate Complete(r: seq<Byte>, offset: nat) {
    offset + 4 <= |r| && offset + 8 + 11 * Load(r, offset, 4) <= |r|
  }

  /** The speed of one port is set; a node not yet in the map gets a new inner map. */
  function Install(m: Speeds, e: Entry): Speeds {
    m[e.node := (if e.node in m then m[e.node] else map[])[e.intf := e.bps]]
  }

  function InstallAll(m: Speeds, entries: seq<Entry>): Speeds {
    if entries == [] then m else Install(InstallAll(m, entries[..|entries| - 1]), entries[|entries| - 1])
  }

  lemma {:induction false} InstallAppend(m: Speeds, a: seq<Entry>, b: seq<Entry>)
    ensures InstallAll(m, a + b) == InstallAll(InstallAll(m, a), b)
  {
    if b == [] {
      assert a + b == a;
    } else {
      var n := |b| - 1;
      assert (a + b)[..|a| + n] == a + b[..n];
      InstallAppend(m, a, b[..n]);
    }
  }

  // ----- Round trip -----

  lemma {:induction false} LoadPrefix(b: seq<Byte>, c: seq<Byte>, offset: nat, width: nat)
    requires offset + width <= |b|
    ensures Load(b + c, offset, width) == Load(b, offset, width)
    decreases width
  {
    if width > 0 {
      LoadPrefix(b, c, offset + 1, width - 1);
    }
  }

  lemma LoadStored(a: seq<Byte>, n: nat, width: nat, c: seq<Byte>)
    requires n < Pow256(width)
    ensures Load(a + (Store(n, width) + c), |a|, width) == n
  {
    var b := Store(n, width) + c;
    LoadShift(a, b, 0, width);
    LoadPrefix(Store(n, width), c, 0, width);
    LoadStore(n, width);
  }

  lemma EntryRead(a: seq<Byte>, e: Entry, c: seq<Byte>)
    ensures EntryAt(a + (EntryBytes(e) + c), |a|) == e
  {
    hide Load, Store;
    Widths();
    var r := a + (EntryBytes(e) + c);
    var x, y, z := Store(e.node, 2), Store(e.intf, 1), Store(e.bps, 8);
    assert r == a + (x + (y + z + c)) && r == (a + x) + (y + (z + c)) && r == (a + x + y) + (z + c);
    LoadStored(a, e.node, 2, y + z + c);
    LoadStored(a + x, e.intf, 1, z + c);
    LoadStored(a + x + y, e.bps, 8, c);
  }

  lemma {:induction false} EntriesRead(a: seq<Byte>, entries: seq<Entry>, c: seq<Byte>)
    ensures EntriesAt(a + (EntriesBytes(entries) + c), |a|, |entries|) == entries
  {
    hide EntryAt, EntryBytes;
    if entries != [] {
      var n := |entries| - 1;
      var init, last := entries[..n], entries[n];
      EntriesRead(a, init, EntryBytes(last) + c);
      Associate(a, EntriesBytes(init), EntryBytes(last), c);
      hide EntriesBytes;
      EntryRead(a + EntriesBytes(init), last, c);
    }
  }

  /** From the bytes that were written, whatever stands before and after them, the same entries and window are read
      and nothing more. */
  lemma ImageRead(before: seq<Byte>, entries: seq<Entry>, win: U32, after: seq<Byte>)
    requires |entries| < 4294967296
    ensures var r, o, n := before + Image(entries, win) + after, |before|, |entries|;
            && Complete(r, o) && Load(r, o, 4) == n && o + 8 + 11 * n == |before + Image(entries, win)|
            && EntriesAt(r, o + 4, n) == entries
            && Load(r, o + 4 + 11 * n, 4) == win
  {
    hide Load, Store, EntriesBytes, EntriesAt;
    Widths();
    var r, n, b := before + Image(entries, win) + after, |entries|, EntriesBytes(entries);
    var x, y := Store(n, 4), Store(win, 4);
    assert r == before + (x + (b + y + after));
    LoadStored(before, n, 4, b + y + after);
    assert r == (before + x) + (b + (y + after));
    EntriesRead(before + x, entries, y + after);
    assert r == (before + x + b) + (y + after);
    LoadStored(before + x + b, win, 4, after);
  }

  /** The map without the nodes that have no port: they leave no trace in the file. */
  function Dense(m: Speeds): Speeds {
    map n | n in m && m[n] != map[] :: m[n]
  }

  /** Restricted to nodes that come before position k of the order. */
  ghost function DenseUpTo(m: Speeds, order: Order, k: nat): Speeds
    requires k <= |order|
  {
    map n | n in m && m[n] != map[] && Before(order, k, n) :: m[n]
  }

  ghost predicate Before(order: Order, k: nat, n: U16)
    requires k <= |order|
  {
    exists i :: 0 <= i < k && order[i].0 == n
  }

  function Restrict(speeds: map<Byte, U64>, ports: seq<Byte>): map<Byte, U64> {
    map p | p in speeds && p in ports :: speeds[p]
  }

  lemma NextPort(speeds: map<Byte, U64>, init: seq<Byte>, last: Byte)
    requires last in speeds
    ensures Restrict(speeds, init + [last]) == Restrict(speeds, init)[last := speeds[last]]
    ensures Restrict(speeds, []) == map[]
  {
  }

  lemma InstallTwice(m: Speeds, e: Entry, row: map<Byte, U64>)
    ensures Install(m[e.node := row], e) == m[e.node := row[e.intf := e.bps]]
    ensures e.node !in m ==> Install(m, e) == m[e.node := map[e.intf := e.bps]]
  {
  }

  lemma InstallNone(m: Speeds)
    ensures InstallAll(m, []) == m
  {
  }

  /** A row fills in one node. */
  lemma {:induction false} InstallRow(m: Speeds, node: U16, ports: seq<Byte>, speeds: map<Byte, U64>)
    requires node !in m && Present(ports, speeds)
    ensures var t := InstallAll(m, Row(node, ports, speeds));
            if ports == [] then t == m else t == m[node := Restrict(speeds, ports)]
  {
    InstallNone(m);
    var row := Row(node, ports, speeds);
    if ports != [] {
      var n := |ports| - 1;
      var init, last := ports[..n], ports[n];
      assert ports == init + [last] && row == Row(node, init, speeds) + [Entry(node, last, speeds[last])];
      assert InstallAll(m, row) == Install(InstallAll(m, Row(node, init, speeds)), Entry(node, last, speeds[last])) by {
        assert row[..n] == Row(node, init, speeds);
      }
      hide Install, InstallAll, Row, Restrict;
      InstallRow(m, node, init, speeds);
      NextPort(speeds, init, last);
      InstallTwice(m, Entry(node, last, speeds[last]), Restrict(speeds, init));
    } else {
      assert row == [];
    }
  }

  /** Position k of the order comes after all earlier nodes, and its ports are those of its node. */
  lemma OrderAt(order: Order, m: Speeds, k: nat)
    requires Orders(order, m) && k < |order|
    ensures var node, ports := order[k].0, order[k].1;
            && node in m && !Before(order, k, node) && (ports == [] <==> m[node] == map[])
            && Restrict(m[node], ports) == m[node]
  {
    var node, ports := order[k].0, order[k].1;
    assert OrdersPorts(ports, m, node);
    if m[node] != map[] {
      var p :| p in m[node];
      assert p in ports;
    }
    if ports != [] {
      assert ports[0] in ports && ports[0] in m[node];
    }
  }

  lemma NextNode(order: Order, m: Speeds, k: nat)
    requires k < |order| && order[k].0 in m
    ensures var node, before, after := order[k].0, DenseUpTo(m, order, k), DenseUpTo(m, order, k + 1);
            after == if m[node] == map[] then before else before[node := m[node]]
  {
    var node := order[k].0;
    forall n: U16
      ensures Before(order, k + 1, n) <==> Before(order, k, n) || n == node
    {
      if Before(order, k, n) {
        var i :| 0 <= i < k && order[i].0 == n;
      }
    }
    hide Before;
  }

  lemma FirstEntries(order: Order, m: Speeds, k: nat)
    requires AllPresent(order, m) && k < |order|
    ensures Entries(order[..k + 1], m) == Entries(order[..k], m) + Row(order[k].0, order[k].1, m[order[k].0])
    ensures Entries(order[..0], m) == []
  {
    hide Row;
    assert order[..k + 1][..k] == order[..k];
  }

  lemma InstallStep(before: seq<Entry>, done: Speeds, node: U16, ports: seq<Byte>, speeds: map<Byte, U64>)
    requires InstallAll(map[], before) == done && node !in done && Present(ports, speeds)
    ensures InstallAll(map[], before + Row(node, ports, speeds))
         == if ports == [] then done else done[node := Restrict(speeds, ports)]
  {
    hide *;
    InstallAppend(map[], before, Row(node, ports, speeds));
    InstallRow(done, node, ports, speeds);
  }

  lemma {:induction false} InstallEntries(order: Order, m: Speeds, k: nat)
    requires Orders(order, m) && AllPresent(order, m) && k <= |order|
    ensures InstallAll(map[], Entries(order[..k], m)) == DenseUpTo(m, order, k)
  {
    if k == 0 {
      assert order[..0] == [] && InstallAll(map[], []) == map[];
    } else {
      InstallEntries(order, m, k - 1);
      OrderAt(order, m, k - 1);
      InstallOneMore(order, m, k - 1);
    }
  }

  lemma InstallOneMore(order: Order, m: Speeds, k: nat)
    requires AllPresent(order, m) && k < |order| && !Before(order, k, order[k].0)
    requires order[k].0 in m && (order[k].1 == [] <==> m[order[k].0] == map[])
    requires Restrict(m[order[k].0], order[k].1) == m[order[k].0]
    requires InstallAll(map[], Entries(order[..k], m)) == DenseUpTo(m, order, k)
    ensures InstallAll(map[], Entries(order[..k + 1], m)) == DenseUpTo(m, order, k + 1)
  {
    var node, ports := order[k].0, order[k].1;
    assert node !in DenseUpTo(m, order, k);
    assert Present(ports, m[node]);
    hide *;
    NextNode(order, m, k);
    FirstEntries(order, m, k);
    InstallStep(Entries(order[..k], m), DenseUpTo(m, order, k), node, ports, m[node]);
  }

  /** Installing all entries into an empty map gives back every speed of every port, in whatever order they were
      written; only nodes without ports are lost. */
  lemma EntriesRestore(order: Order, m: Speeds)
    requires Orders(order, m) && AllPresent(order, m)
    ensures InstallAll(map[], Entries(order, m)) == Dense(m)
  {
    hide InstallAll, Entries, OrdersPorts, AllPresent;
    InstallEntries(order, m, |order|);
    assert order[..|order|] == order;
    assert forall n :: n in m ==> Before(order, |order|, n);
  }

  // ----- The file and the settings object -----

  /** A binary file: what is written goes to its end, reading moves a position forward. */
  class File {
    var data: seq<Byte>
    var pos: nat

    constructor (data: seq<Byte>)
      ensures this.data == data && pos == 0
    {
      this.data, pos := data, 0;
    }

    method Write(bytes: seq<Byte>)
      modifies this`data
      ensures data == old(data) + bytes
    {
      data := data + bytes;
    }

    /** `fread` of one number: 1 if it is there; otherwise 0, at the end of the file, and any number. */
    method Read(width: nat) returns (ret: nat, n: nat)
      requires pos <= |data|
      modifies this`pos
      ensures n < Pow256(width)
      ensures ret == 1 <==> old(pos) + width <= |data|
      ensures ret == 1 ==> pos == old(pos) + width && n == Load(data, old(pos), width)
      ensures ret != 1 ==> ret == 0 && pos == |data|
    {
      if pos + width <= |data| {
        LoadBound(data, pos, width);
        n := Load(data, pos, width);
        ret, pos := 1, pos + width;
      } else {
        n :| n < Pow256(width);
        ret, pos := 0, |data|;
      }
    }
  }

  class SimSetting {
    var portSpeed: Speeds
    var win: U32

    constructor ()
      ensures portSpeed == map[]
    {
      portSpeed, win := map[], 0;
    }

    /** The inner counting loop. */
    static method CountPorts(ports: seq<Byte>, len0: U32) returns (len: U32)
      ensures len == (len0 + |ports|) % 4294967296
    {
      len := len0;
      for b := 0 to |ports|
        invariant len == (len0 + b) % 4294967296
      {
        len := (len + 1) % 4294967296;
      }
    }

    /** The first pair of loops. */
    method CountEntries(order: Order) returns (len: U32)
      requires Orders(order, portSpeed) && AllPresent(order, portSpeed)
      ensures len == |Entries(order, portSpeed)|
    {
      hide *;
      FewEntries(order, portSpeed);
      TotalPorts(order, portSpeed);
      len := 0;
      NoPorts(order);
      for a := 0 to |order|
        invariant len == PortsUpTo(order, a) % 4294967296
      {
        len := CountPorts(order[a].1, len);
        NextPorts(order, a);
      }
    }

    /** One iteration of the outer writing loop. */
    method WriteRow(file: File, node: U16, ports: seq<Byte>)
      requires node in portSpeed && Present(ports, portSpeed[node])
      modifies file`data
      ensures file.data == old(file.data) + EntriesBytes(Row(node, ports, portSpeed[node]))
    {
      ghost var row := Row(node, ports, portSpeed[node]);
      hide EntriesBytes, Row;
      NoBytes();
      for b := 0 to |ports|
        invariant file.data == old(file.data) + EntriesBytes(row[..b])
      {
        var bps := portSpeed[node][ports[b]];
        file.Write(Store(node, 2));
        file.Write(Store(ports[b], 1));
        file.Write(Store(bps, 8));
        NextEntry(old(file.data), row, b);
      }
      assert row[..|ports|] == row;
    }

    /** The outer writing loop. */
    method WriteRows(file: File, order: Order)
      requires AllPresent(order, portSpeed)
      modifies file`data
      ensures file.data == old(file.data) + EntriesBytes(Entries(order, portSpeed))
    {
      assert Entries(order[..0], portSpeed) == [];
      hide EntriesBytes, Row, Entries, Present;
      NoBytes();
      for a := 0 to |order|
        invariant file.data == old(file.data) + EntriesBytes(Entries(order[..a], portSpeed))
      {
        WriteRow(file, order[a].0, order[a].1);
        NextRow(order, portSpeed, a);
      }
      assert order[..|order|] == order;
    }

    /** Whatever the order of iteration, the file grows by the image of the entries in that order. */
    method Serialize(file: File, order: Order)
      requires Orders(order, portSpeed)
      modifies file`data
      ensures AllPresent(order, portSpeed)
      ensures |Entries(order, portSpeed)| <= 65536 * 256
      ensures file.data == old(file.data) + Image(Entries(order, portSpeed), win)
    {
      hide EntriesBytes, Entries, Orders, Store;
      OrdersPresent(order, portSpeed);
      FewEntries(order, portSpeed);
      var len := CountEntries(order);
      file.Write(Store(len, 4));
      WriteRows(file, order);
      file.Write(Store(win, 4));
      ghost var entries := Entries(order, portSpeed);
      Associate(old(file.data), Store(len, 4), EntriesBytes(entries), Store(win, 4));
    }

    /** The reading loop's body. */
    method ReadEntry(file: File, ret0: nat) returns (ret: nat)
      requires file.pos <= |file.data| && ret0 <= 1
      modifies file`pos, this`portSpeed
      ensures file.pos <= |file.data|
      ensures ret == 1 <==> ret0 == 1 && old(file.pos) + 11 <= |file.data|
      ensures ret == 1 ==> file.pos == old(file.pos) + 11
      ensures ret == 1 ==> portSpeed == Install(old(portSpeed), EntryAt(file.data, old(file.pos)))
      ensures ret != 1 ==> ret == 0
    {
      Widths();
      ret := ret0;
      var r1, node := file.Read(2);
      ret := if ret == 1 then r1 else 0;
      var r2, intf := file.Read(1);
      ret := if ret == 1 then r2 else 0;
      var r3, bps := file.Read(8);
      ret := if ret == 1 then r3 else 0;
      portSpeed := Install(portSpeed, Entry(node, intf, bps));
    }

    /** The reading loop. */
    method ReadEntries(file: File, len: U32, ret0: nat) returns (ret: nat)
      requires file.pos <= |file.data| && ret0 <= 1
      modifies file`pos, this`portSpeed
      ensures file.pos <= |file.data| && ret <= 1
      ensures ret == 1 <==> ret0 == 1 && old(file.pos) + 11 * len <= |file.data|
      ensures ret == 1 ==> file.pos == old(file.pos) + 11 * len
      ensures ret == 1 ==> portSpeed == InstallAll(old(portSpeed), EntriesAt(file.data, old(file.pos), len))
    {
      ret := ret0;
      ghost var r, o := file.data, file.pos;
      NoneInstalled(portSpeed, r, o);
      hide EntryAt, EntriesAt, Install, InstallAll;
      for i := 0 to len
        invariant file.pos <= |r| && ret <= 1
        invariant ret == 1 <==> ret0 == 1 && o + 11 * i <= |r|
        invariant ret == 1 ==> file.pos == o + 11 * i
        invariant ret == 1 ==> portSpeed == InstallAll(old(portSpeed), EntriesAt(r, o, i))
      {
        ret := ReadEntry(file, ret);
        if ret == 1 {
          NextInstalled(old(portSpeed), r, o, i);
        }
      }
    }

    /** The final assertion holds exactly when the bytes are all there; then the entries are installed in order, the
        window is set, and the position is right behind them. */
    method Deserialize(file: File) returns (ok: bool)
      requires file.pos <= |file.data|
      modifies file`pos, this`portSpeed, this`win
      ensures file.pos <= |file.data|
      ensures ok <==> Complete(file.data, old(file.pos))
      ensures ok ==>
                var o := old(file.pos);
                var n := Load(file.data, o, 4);
                && portSpeed == InstallAll(old(portSpeed), EntriesAt(file.data, o + 4, n))
                && win == Load(file.data, o + 4 + 11 * n, 4)
                && file.pos == o + 8 + 11 * n
    {
      Widths();
      hide Load, EntriesAt, InstallAll, Pow256;
      var ret, len := file.Read(4);
      ret := ReadEntries(file, len, ret);
      var r4, w := file.Read(4);
      win := w;
      ret := if ret == 1 then r4 else 0;
      return ret != 0;
    }
  }

  lemma Associate(a: seq<Byte>, b: seq<Byte>, c: seq<Byte>, d: seq<Byte>)
    ensures a + b + c + d == a + (b + (c + d)) == a + ((b + c) + d) == (a + b) + (c + d)
  {
  }

  lemma NoBytes()
    ensures EntriesBytes([]) == []
  {
  }

  lemma NextEntry(before: seq<Byte>, row: seq<Entry>, b: nat)
    requires b < |row|
    ensures before + EntriesBytes(row[..b]) + Store(row[b].node, 2) + Store(row[b].intf, 1) + Store(row[b].bps, 8)
         == before + EntriesBytes(row[..b + 1])
  {
    assert row[..b + 1][..b] == row[..b];
  }

  lemma NextRow(order: Order, m: Speeds, a: nat)
    requires AllPresent(order, m) && a < |order|
    ensures EntriesBytes(Entries(order[..a + 1], m))
         == EntriesBytes(Entries(order[..a], m)) + EntriesBytes(Row(order[a].0, order[a].1, m[order[a].0]))
  {
    assert order[..a + 1][..a] == order[..a];
    EntriesBytesAppend(Entries(order[..a], m), Row(order[a].0, order[a].1, m[order[a].0]));
  }

  lemma NoneInstalled(m: Speeds, r: seq<Byte>, offset: nat)
    requires offset <= |r|
    ensures InstallAll(m, EntriesAt(r, offset, 0)) == m
  {
  }

  lemma NextInstalled(m: Speeds, r: seq<Byte>, offset: nat, i: nat)
    requires offset + 11 * (i + 1) <= |r|
    ensures InstallAll(m, EntriesAt(r, offset, i + 1))
         == Install(InstallAll(m, EntriesAt(r, offset, i)), EntryAt(r, offset + 11 * i))
  {
    var all := EntriesAt(r, offset, i + 1);
    assert all[..|all| - 1] == EntriesAt(r, offset, i);
  }

  /** Write the settings, let anything follow in the file, and read them back into an empty object: the assertion
      holds, every port speed and the window come back, and what follows is still to be read. */
  method RoundTrip(s: SimSetting, order: Order, file: File, following: seq<Byte>) returns (t: SimSetting, ok: bool)
    requires Orders(order, s.portSpeed) && file.pos == |file.data|
    modifies file
    ensures ok && fresh(t) && t.portSpeed == Dense(s.portSpeed) && t.win == s.win
    ensures file.pos <= |file.data| && file.data[file.pos..] == following
  {
    hide Orders, Entries, Image, Complete, EntriesAt, Load, Dense, InstallAll;
    ghost var before := file.data;
    s.Serialize(file, order);
    ghost var entries := Entries(order, s.portSpeed);
    file.Write(following);
    ImageRead(before, entries, s.win, following);
    EntriesRestore(order, s.portSpeed);
    t := new SimSetting();
    ok := t.Deserialize(file);
  }
}
