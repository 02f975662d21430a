/**
 * The network page: reconciling the page's set of IPv4 interfaces with the
 * list `getifaddrs` reports, the page's selection, and the cycling through
 * the interfaces each time the page is shown.
 *
 * The interface list is a parameter (the system call is outside the model),
 * and so is the wireless network name the `ioctl` query of a new interface
 * object reports.
 */
module Network {
  import opened Text
  import opened Display
  import opened Pages

  // -----------------------------------------------------------------------
  // The entries of the interface list.
  // -----------------------------------------------------------------------

  /** `AF_INET` on Linux. */
  const AfInet := 2

  /**
   * One entry of the `getifaddrs` list: the interface name, whether it has
   * an address, the address family and, for IPv4, the address as a 32-bit
   * number with the first octet most significant (after `htonl`).
   */
  datatype IfAddr = IfAddr(name: string, hasAddr: bool, family: int, ip: bv32)

  /** `address_v4::is_loopback`. */
  predicate IsLoopback(ip: bv32)
  {
    ip & 0xFF00_0000 == 0x7F00_0000
  }

  /** `address_v4::is_multicast`. */
  predicate IsMulticast(ip: bv32)
  {
    ip & 0xF000_0000 == 0xE000_0000
  }

  /** The entries `fillnetifs` looks at: with an address, IPv4, neither loopback nor multicast. */
  predicate Qualifies(a: IfAddr)
  {
    a.hasAddr && a.family == AfInet && !IsLoopback(a.ip) && !IsMulticast(a.ip)
  }

  /** Loopback is 127.0.0.0/8 and multicast 224.0.0.0/4: both are decided by the first octet. */
  lemma FirstOctetDecides(ip: bv32)
    ensures IsLoopback(ip) <==> ip >> 24 == 127
    ensures IsMulticast(ip) <==> 224 <= ip >> 24 < 240
  {
  }

  // -----------------------------------------------------------------------
  // The interface set: a `std::set` ordered by interface name.
  // -----------------------------------------------------------------------

  /** `NetInterface`: the name, the address and the wireless network name (empty if none). */
  datatype Netif = Netif(name: string, addr: bv32, essid: string)

  /** `NetInterface::isWireless`. */
  predicate IsWireless(n: Netif)
  {
    n.essid != ""
  }

  /** `std::string`'s `operator<`: lexicographic by character. */
  predicate LexLess(a: string, b: string)
  {
    if a == [] then b != []
    else if b == [] then false
    else if a[0] != b[0] then a[0] < b[0]
    else LexLess(a[1..], b[1..])
  }

  lemma {:induction false} LexIrreflexive(a: string)
    ensures !LexLess(a, a)
  {
    if a != [] {
      LexIrreflexive(a[1..]);
    }
  }

  lemma {:induction false} LexTransitive(a: string, b: string, c: string)
    requires LexLess(a, b) && LexLess(b, c)
    ensures LexLess(a, c)
  {
    if a != [] && b != [] && c != [] && a[0] == b[0] && b[0] == c[0] {
      LexTransitive(a[1..], b[1..], c[1..]);
    }
  }

  lemma {:induction false} LexTotal(a: string, b: string)
    requires a != b
    ensures LexLess(a, b) || LexLess(b, a)
  {
    if a != [] && b != [] && a[0] == b[0] {
      assert a == [a[0]] + a[1..] && b == [b[0]] + b[1..];
      LexTotal(a[1..], b[1..]);
    }
  }

  /** The set's order: strictly increasing names, so a name is there at most once. */
  predicate ByName(s: seq<Netif>)
  {
    forall i, j :: 0 <= i < j < |s| ==> LexLess(s[i].name, s[j].name)
  }

  /** Every name in `s` comes after `a`. */
  predicate AllAfter(a: string, s: seq<Netif>)
  {
    forall j :: 0 <= j < |s| ==> LexLess(a, s[j].name)
  }

  /** The names in the set. */
  function Names(s: seq<Netif>): set<string>
  {
    if s == [] then {} else {s[0].name} + Names(s[1..])
  }

  /** The set seen as a map from name to interface. */
  function AsMap(s: seq<Netif>): (m: map<string, Netif>)
    ensures m.Keys == Names(s)
  {
    if s == [] then map[] else AsMap(s[1..])[s[0].name := s[0]]
  }

  /** Each interface of the map is filed under its own name. */
  ghost predicate Keyed(m: map<string, Netif>)
  {
    forall n :: n in m ==> m[n].name == n
  }

  /** Each interface is filed under its own name. */
  lemma {:induction false} AsMapKeyed(s: seq<Netif>)
    ensures Keyed(AsMap(s))
  {
    if s != [] {
      AsMapKeyed(s[1..]);
    }
  }

  lemma {:induction false} NamesIndex(s: seq<Netif>, n: string)
    ensures n in Names(s) <==> exists i :: 0 <= i < |s| && s[i].name == n
  {
    if s != [] {
      NamesIndex(s[1..], n);
      if n in Names(s[1..]) {
        var i :| 1 <= i + 1 <= |s[1..]| && s[1..][i].name == n;
        assert s[i + 1].name == n;
      }
      if exists i :: 0 <= i < |s| && s[i].name == n {
        var i :| 0 <= i < |s| && s[i].name == n;
        if i > 0 {
          assert s[1..][i - 1].name == n;
        }
      }
    }
  }

  /** In a set ordered by name the first name is not repeated further on. */
  lemma HeadNotInTail(s: seq<Netif>)
    requires ByName(s) && s != []
    ensures s[0].name !in Names(s[1..]) && AllAfter(s[0].name, s[1..])
  {
    NamesIndex(s[1..], s[0].name);
    if s[0].name in Names(s[1..]) {
      var i :| 0 <= i < |s[1..]| && s[1..][i].name == s[0].name;
      assert LexLess(s[0].name, s[i + 1].name);
      LexIrreflexive(s[0].name);
    }
  }

  /** Each interface of the set is found under its own name. */
  lemma {:induction false} AsMapAt(s: seq<Netif>, i: int)
    requires ByName(s) && 0 <= i < |s|
    ensures s[i].name in AsMap(s) && AsMap(s)[s[i].name] == s[i]
  {
    if i > 0 {
      AsMapAt(s[1..], i - 1);
      assert LexLess(s[0].name, s[i].name);
      LexIrreflexive(s[0].name);
    }
  }

  /** Dropping the first interface of an ordered set drops its name from the map. */
  lemma AsMapTail(s: seq<Netif>)
    requires ByName(s) && s != []
    ensures AsMap(s[1..]) == AsMap(s) - {s[0].name}
  {
    HeadNotInTail(s);
  }

  /** Two ordered sets with the same interfaces start with the same interface. */
  lemma HeadsAgree(a: seq<Netif>, b: seq<Netif>)
    requires ByName(a) && ByName(b) && AsMap(a) == AsMap(b) && a != []
    ensures b != [] && a[0] == b[0]
  {
    assert b != [] by {
      assert a[0].name in Names(a);
    }
    NamesIndex(a, b[0].name);
    NamesIndex(b, a[0].name);
    var i :| 0 <= i < |a| && a[i].name == b[0].name;
    var k :| 0 <= k < |b| && b[k].name == a[0].name;
    if i > 0 && k > 0 {
      assert LexLess(a[0].name, a[i].name) && LexLess(b[0].name, b[k].name);
      LexTransitive(a[0].name, b[0].name, a[0].name);
      LexIrreflexive(a[0].name);
    }
    AsMapAt(a, 0);
    AsMapAt(b, 0);
  }

  /** Two sets with the same interfaces are the same sequence. */
  lemma {:induction false} ByNameUnique(a: seq<Netif>, b: seq<Netif>)
    requires ByName(a) && ByName(b) && AsMap(a) == AsMap(b)
    ensures a == b
  {
    if a != [] {
      HeadsAgree(a, b);
      AsMapTail(a);
      AsMapTail(b);
      ByNameUnique(a[1..], b[1..]);
      assert a == [a[0]] + a[1..] && b == [b[0]] + b[1..];
    }
  }

  /** `std::set::find` by name: the position, or -1 for `end()`. */
  function Find(s: seq<Netif>, name: string): (k: int)
    ensures -1 <= k < |s|
    ensures k >= 0 ==> s[k].name == name
    ensures k < 0 <==> name !in Names(s)
  {
    if s == [] then -1
    else if s[0].name == name then 0
    else
      var k := Find(s[1..], name);
      if k < 0 then -1 else k + 1
  }

  /** `emplace` of an interface whose name is not in the set: it goes to its place in name order. */
  function InsertByName(s: seq<Netif>, x: Netif): (r: seq<Netif>)
    ensures |r| == |s| + 1
  {
    if s == [] || LexLess(x.name, s[0].name) then [x] + s
    else [s[0]] + InsertByName(s[1..], x)
  }

  lemma {:induction false} InsertAllAfter(a: string, s: seq<Netif>, x: Netif)
    requires AllAfter(a, s) && LexLess(a, x.name)
    ensures AllAfter(a, InsertByName(s, x))
  {
    if !(s == [] || LexLess(x.name, s[0].name)) {
      InsertAllAfter(a, s[1..], x);
    }
  }

  /** Inserting keeps the order. */
  lemma {:induction false} InsertByNameOrder(s: seq<Netif>, x: Netif)
    requires ByName(s) && x.name !in Names(s)
    ensures ByName(InsertByName(s, x))
  {
    var r := InsertByName(s, x);
    if s == [] {
    } else if LexLess(x.name, s[0].name) {
      forall j | 0 < j < |r|
        ensures LexLess(x.name, r[j].name)
      {
        if j > 1 {
          LexTransitive(x.name, s[0].name, s[j - 1].name);
        }
      }
    } else {
      LexTotal(x.name, s[0].name);
      var rest := InsertByName(s[1..], x);
      assert r == [s[0]] + rest;
      HeadNotInTail(s);
      InsertByNameOrder(s[1..], x);
      InsertAllAfter(s[0].name, s[1..], x);
    }
  }

  /** Inserting adds exactly the one interface. */
  lemma {:induction false} InsertByNameMap(s: seq<Netif>, x: Netif)
    requires x.name !in Names(s)
    ensures AsMap(InsertByName(s, x)) == AsMap(s)[x.name := x]
  {
    var r := InsertByName(s, x);
    if s == [] || LexLess(x.name, s[0].name) {
      assert r[1..] == s;
    } else {
      var rest := InsertByName(s[1..], x);
      assert r[1..] == rest;
      InsertByNameMap(s[1..], x);
      assert AsMap(r) == AsMap(rest)[s[0].name := s[0]];
      UpdatesCommute(AsMap(s[1..]), x, s[0]);
    }
  }

  /** Filing two interfaces of different names does not depend on the order. */
  lemma UpdatesCommute(m: map<string, Netif>, x: Netif, y: Netif)
    requires x.name != y.name
    ensures m[x.name := x][y.name := y] == m[y.name := y][x.name := x]
  {
  }

  /** `erase` at a position. */
  function EraseAt(s: seq<Netif>, k: int): (r: seq<Netif>)
    requires 0 <= k < |s|
    ensures |r| == |s| - 1
  {
    s[..k] + s[k + 1..]
  }

  /** Erasing keeps the order. */
  lemma EraseAtOrder(s: seq<Netif>, k: int)
    requires ByName(s) && 0 <= k < |s|
    ensures ByName(EraseAt(s, k))
  {
    var r := EraseAt(s, k);
    forall i, j | 0 <= i < j < |r|
      ensures LexLess(r[i].name, r[j].name)
    {
      var i' := if i < k then i else i + 1;
      var j' := if j < k then j else j + 1;
      assert r[i] == s[i'] && r[j] == s[j'];
    }
  }

  /** Erasing removes exactly the one name. */
  lemma {:induction false} EraseAtMap(s: seq<Netif>, k: int)
    requires ByName(s) && 0 <= k < |s|
    ensures AsMap(EraseAt(s, k)) == AsMap(s) - {s[k].name}
  {
    if k == 0 {
      assert EraseAt(s, k) == s[1..];
      AsMapTail(s);
    } else {
      var r := EraseAt(s, k);
      assert r == [s[0]] + EraseAt(s[1..], k - 1);
      assert r[1..] == EraseAt(s[1..], k - 1);
      EraseAtMap(s[1..], k - 1);
      assert s[k].name != s[0].name by {
        assert LexLess(s[0].name, s[k].name);
        LexIrreflexive(s[0].name);
      }
      DropThenAdd(AsMap(s[1..]), s[k].name, s[0]);
    }
  }

  lemma DropThenAdd(m: map<string, Netif>, n: string, x: Netif)
    requires n != x.name
    ensures (m - {n})[x.name := x] == m[x.name := x] - {n}
  {
  }

  /** Adding an interface of a new name. */
  lemma InsertNew(s: seq<Netif>, x: Netif)
    requires ByName(s) && x.name !in Names(s)
    ensures ByName(InsertByName(s, x)) && AsMap(InsertByName(s, x)) == AsMap(s)[x.name := x]
  {
    InsertByNameOrder(s, x);
    InsertByNameMap(s, x);
  }

  /** Erasing an interface and inserting another of the same name replaces it. */
  lemma ReplaceAt(s: seq<Netif>, i: int, x: Netif)
    requires ByName(s) && 0 <= i < |s| && s[i].name == x.name
    ensures ByName(InsertByName(EraseAt(s, i), x))
    ensures AsMap(InsertByName(EraseAt(s, i), x)) == AsMap(s)[x.name := x]
  {
    EraseAtOrder(s, i);
    EraseAtMap(s, i);
    InsertNew(EraseAt(s, i), x);
    DropThenRefile(AsMap(s), x);
  }

  /** Dropping a name and filing an interface under it is filing it. */
  lemma DropThenRefile(m: map<string, Netif>, x: Netif)
    ensures (m - {x.name})[x.name := x] == m[x.name := x]
  {
  }

  /** The interfaces whose names were seen, in order. */
  function Keep(s: seq<Netif>, seen: set<string>): (r: seq<Netif>)
    ensures |r| <= |s|
  {
    if s == [] then [] else (if s[0].name in seen then [s[0]] else []) + Keep(s[1..], seen)
  }

  lemma {:induction false} KeepAppend(a: seq<Netif>, b: seq<Netif>, seen: set<string>)
    ensures Keep(a + b, seen) == Keep(a, seen) + Keep(b, seen)
  {
    if a != [] {
      assert (a + b)[1..] == a[1..] + b;
      KeepAppend(a[1..], b, seen);
    } else {
      assert a + b == b;
    }
  }

  lemma {:induction false} KeepAllAfter(a: string, s: seq<Netif>, seen: set<string>)
    requires AllAfter(a, s)
    ensures AllAfter(a, Keep(s, seen))
  {
    if s != [] {
      KeepAllAfter(a, s[1..], seen);
    }
  }

  /** The map restricted to the names in `seen`. */
  function Restrict(m: map<string, Netif>, seen: set<string>): map<string, Netif>
  {
    map n | n in m && n in seen :: m[n]
  }

  /** Keeping the seen names keeps the order. */
  lemma {:induction false} KeepByName(s: seq<Netif>, seen: set<string>)
    requires ByName(s)
    ensures ByName(Keep(s, seen))
  {
    if s != [] {
      HeadNotInTail(s);
      KeepByName(s[1..], seen);
      KeepAllAfter(s[0].name, s[1..], seen);
      if s[0].name in seen {
        assert Keep(s, seen)[1..] == Keep(s[1..], seen);
      }
    }
  }

  lemma RestrictUpdate(m: map<string, Netif>, x: Netif, seen: set<string>)
    ensures Restrict(m[x.name := x], seen)
      == if x.name in seen then Restrict(m, seen)[x.name := x] else Restrict(m, seen) - {x.name}
  {
  }

  /** Keeping the seen names keeps exactly those interfaces. */
  lemma {:induction false} KeepMap(s: seq<Netif>, seen: set<string>)
    requires ByName(s)
    ensures AsMap(Keep(s, seen)) == Restrict(AsMap(s), seen)
  {
    if s != [] {
      HeadNotInTail(s);
      KeepMap(s[1..], seen);
      RestrictUpdate(AsMap(s[1..]), s[0], seen);
      if s[0].name in seen {
        assert Keep(s, seen) == [s[0]] + Keep(s[1..], seen);
        assert Keep(s, seen)[1..] == Keep(s[1..], seen);
      } else {
        assert Keep(s, seen) == Keep(s[1..], seen);
      }
    }
  }

  /** The number of interfaces dropped is the number of unseen names. */
  lemma {:induction false} KeepCount(s: seq<Netif>, seen: set<string>)
    requires ByName(s)
    ensures |s| - |Keep(s, seen)| == |Names(s) - seen|
  {
    if s != [] {
      HeadNotInTail(s);
      KeepCount(s[1..], seen);
      assert Names(s) - seen == ({s[0].name} - seen) + (Names(s[1..]) - seen);
    }
  }

  /** The kept prefix grows by the next interface when its name was seen. */
  lemma KeepStep(s: seq<Netif>, j: int, seen: set<string>)
    requires 0 <= j < |s|
    ensures Keep(s[..j + 1], seen) == Keep(s[..j], seen) + (if s[j].name in seen then [s[j]] else [])
  {
    assert s[..j + 1] == s[..j] + [s[j]];
    KeepAppend(s[..j], [s[j]], seen);
  }

  // -----------------------------------------------------------------------
  // What `fillnetifs` computes.
  // -----------------------------------------------------------------------

  /**
   * The address of the first qualifying entry of each name among the first
   * `k` entries: later entries of a name already seen are ignored.
   */
  function WantedUpTo(es: seq<IfAddr>, k: nat): map<string, bv32>
    requires k <= |es|
  {
    if k == 0 then map[]
    else
      var w := WantedUpTo(es, k - 1);
      if Qualifies(es[k - 1]) && es[k - 1].name !in w then w[es[k - 1].name := es[k - 1].ip] else w
  }

  /** What the whole list asks for. */
  function Wanted(es: seq<IfAddr>): map<string, bv32>
  {
    WantedUpTo(es, |es|)
  }

  /** A name is wanted exactly when some entry for it qualifies, and then with the address of the first such entry. */
  lemma {:induction false} WantedFirst(es: seq<IfAddr>, k: nat)
    requires k <= |es|
    ensures forall n :: n in WantedUpTo(es, k) <==> exists i :: 0 <= i < k && Qualifies(es[i]) && es[i].name == n
    ensures forall i :: (0 <= i < k && Qualifies(es[i])
      && (forall h :: 0 <= h < i && Qualifies(es[h]) ==> es[h].name != es[i].name)
      ==> es[i].name in WantedUpTo(es, k) && WantedUpTo(es, k)[es[i].name] == es[i].ip)
  {
    if k > 0 {
      WantedFirst(es, k - 1);
    }
  }

  /** The interface for `n` after the reconciliation: the old object if its address is unchanged, else a new one. */
  function Reconcile1(m: map<string, Netif>, n: string, ip: bv32, essidOf: string -> string): Netif
  {
    if n in m && m[n].addr == ip then m[n] else Netif(n, ip, essidOf(n))
  }

  /** The set after the first loop: the wanted names reconciled, every other name as it was. */
  function Merged(m: map<string, Netif>, w: map<string, bv32>, essidOf: string -> string): map<string, Netif>
  {
    map n | n in m.Keys + w.Keys :: if n in w then Reconcile1(m, n, w[n], essidOf) else m[n]
  }

  lemma MergedKeys(m: map<string, Netif>, w: map<string, bv32>, essidOf: string -> string)
    ensures Merged(m, w, essidOf).Keys == m.Keys + w.Keys
  {
  }

  /** The set after `fillnetifs`: exactly the wanted names, each with its wanted address. */
  function Reconciled(m: map<string, Netif>, w: map<string, bv32>, essidOf: string -> string): map<string, Netif>
  {
    map n | n in w :: Reconcile1(m, n, w[n], essidOf)
  }

  /** The names the first loop counts: new ones and ones whose address changed. */
  function Changed(m: map<string, Netif>, w: map<string, bv32>): set<string>
  {
    set n | n in w && (n !in m || m[n].addr != w[n])
  }

  /** The count `fillnetifs` returns: one per new or changed name and one per removed name. */
  function Updates(m: map<string, Netif>, w: map<string, bv32>): nat
  {
    |Changed(m, w)| + |m.Keys - w.Keys|
  }

  /** The reconciled set has exactly the wanted names with the wanted addresses; unchanged interfaces are kept. */
  lemma ReconciledShape(m: map<string, Netif>, w: map<string, bv32>, essidOf: string -> string)
    requires Keyed(m)
    ensures Reconciled(m, w, essidOf).Keys == w.Keys && Keyed(Reconciled(m, w, essidOf))
    ensures forall n :: n in w ==> Reconciled(m, w, essidOf)[n].addr == w[n]
    ensures forall n :: n in w && n in m && m[n].addr == w[n] ==> Reconciled(m, w, essidOf)[n] == m[n]
  {
  }

  /** `fillnetifs` returns 0 exactly when the set is left as it was. */
  lemma UpdatesZero(m: map<string, Netif>, w: map<string, bv32>, essidOf: string -> string)
    requires Keyed(m)
    ensures Updates(m, w) == 0 <==> Reconciled(m, w, essidOf) == m
  {
    var r := Reconciled(m, w, essidOf);
    if Updates(m, w) == 0 {
      assert Changed(m, w) == {};
      assert m.Keys - w.Keys == {};
      forall n | n in w
        ensures n in m && r[n] == m[n]
      {
        assert n !in Changed(m, w);
      }
      assert r.Keys == m.Keys;
    }
    if r == m {
      assert m.Keys - w.Keys == {};
      forall n | n in w
        ensures n in m && m[n].addr == w[n]
      {
        assert r[n].addr == w[n];
      }
      assert Changed(m, w) == {};
    }
  }

  /** One more qualifying entry of an unseen name, as the first loop sees it. */
  lemma MergedStep(m: map<string, Netif>, w: map<string, bv32>, n: string, ip: bv32, essidOf: string -> string)
    requires n !in w
    ensures Merged(m, w[n := ip], essidOf) == Merged(m, w, essidOf)[n := Reconcile1(m, n, ip, essidOf)]
    ensures Changed(m, w[n := ip]) == Changed(m, w) + (if n in m && m[n].addr == ip then {} else {n})
    ensures n !in Changed(m, w)
  {
    MergedUpdate(m, w, n, ip, essidOf);
    ChangedUpdate(m, w, n, ip);
  }

  lemma MergedUpdate(m: map<string, Netif>, w: map<string, bv32>, n: string, ip: bv32, essidOf: string -> string)
    requires n !in w
    ensures Merged(m, w[n := ip], essidOf) == Merged(m, w, essidOf)[n := Reconcile1(m, n, ip, essidOf)]
  {
    var a := Merged(m, w[n := ip], essidOf);
    var b := Merged(m, w, essidOf)[n := Reconcile1(m, n, ip, essidOf)];
    assert a.Keys == b.Keys;
    forall k | k in a.Keys
      ensures a[k] == b[k]
    {
    }
  }

  lemma ChangedUpdate(m: map<string, Netif>, w: map<string, bv32>, n: string, ip: bv32)
    requires n !in w
    ensures Changed(m, w[n := ip]) == Changed(m, w) + (if n in m && m[n].addr == ip then {} else {n})
    ensures n !in Changed(m, w)
  {
  }

  /** `value |= n` on non-negative `int`s: bitwise or. */
  function BitOr(a: nat, b: nat): nat
  {
    if a == 0 then b
    else if b == 0 then a
    else 2 * BitOr(a / 2, b / 2) + (if a % 2 == 1 || b % 2 == 1 then 1 else 0)
  }

  /** Or-ing keeps a non-zero value non-zero, and gives zero only from two zeros. */
  lemma {:induction false} BitOrZero(a: nat, b: nat)
    ensures BitOr(a, b) == 0 <==> a == 0 && b == 0
  {
    if a != 0 && b != 0 {
      BitOrZero(a / 2, b / 2);
    }
  }

  // -----------------------------------------------------------------------
  // Selection and display.
  // -----------------------------------------------------------------------

  /** `NetworkPage::select`'s decision once the set is filled. */
  function NetworkSelect(di: DisplayInfo, sc: Cause, nonEmpty: bool): Response
  {
    Respond(sc == SelectUser || (nonEmpty && di.goodfix && di.now < EclipseStart(di)))
  }

  /** Automatically the page is shown only with an interface, a good fix, and before the eclipse. */
  lemma NetworkSelectWhen(di: DisplayInfo, sc: Cause, nonEmpty: bool)
    ensures NetworkSelect(di, SelectUser, nonEmpty) == SelectPage
    ensures NetworkSelect(di, SelectAuto, nonEmpty) == SelectPage
      <==> nonEmpty && di.goodfix && di.now < di.start - BeforeTotality
  {
  }

  /** What `show` puts on the screen: no interface, the interface at a position, or the position `end()`. */
  datatype Shown = NoNetworks | Interface(index: nat) | PastTheEnd

  /**
   * `NetworkPage::show` as written, on the number of interfaces, the
   * position of `last` and `change`: the outcome, the new `last` and the new
   * `change`. With `change` set it goes to the first interface without
   * checking that there is one.
   */
  function ShowAsWritten(count: nat, last: int, change: nat): (Shown, int, nat)
  {
    if change != 0 then (if count > 0 then Interface(0) else PastTheEnd, 0, 0)
    else if count == 0 then (NoNetworks, last, change)
    else
      var next := if last + 1 == count then 0 else last + 1;
      (if 0 <= next < count then Interface(next) else PastTheEnd, next, 0)
  }

  /** `show` with the emptiness test first: an empty set always reads "No networks". */
  function ShowChecked(count: nat, last: int, change: nat): (r: (Shown, int, nat))
    ensures count == 0 ==> r == (NoNetworks, last, change)
  {
    if count == 0 then (NoNetworks, last, change)
    else ShowAsWritten(count, last, change)
  }

  /** Every interface that disappears while the page is not shown leaves `show` as written reading `end()`. */
  lemma ShowAsWrittenPastTheEnd(last: int, change: nat)
    requires change != 0
    ensures ShowAsWritten(0, last, change).0 == PastTheEnd
    ensures ShowChecked(0, last, change).0 == NoNetworks
  {
  }

  /** The checked `show` only ever displays an interface that exists, and cycles through them in order. */
  lemma ShowCheckedCycles(count: nat, last: int, change: nat)
    requires change == 0 && count > 0 ==> 0 <= last < count
    ensures var r := ShowChecked(count, last, change);
      && r.0 != PastTheEnd
      && (count > 0 ==> r.0 == Interface(r.1) && 0 <= r.1 < count && r.2 == 0)
      && (count > 0 && change != 0 ==> r.1 == 0)
      && (count > 0 && change == 0 ==> r.1 == (last + 1) % count)
  {
  }

  /** The text lines `show` writes for an interface: the name, the wireless network if any, the address. */
  function InterfaceLines(n: Netif): (lines: seq<(int, string)>)
    ensures |lines| == if IsWireless(n) then 3 else 2
    ensures lines[0] == (0, n.name) && lines[|lines| - 1].0 == 2
  {
    [(0, n.name)] + (if IsWireless(n) then [(1, n.essid)] else []) + [(2, DottedQuad(n.addr))]
  }

  /** `address_v4::to_string`: the four octets in decimal, separated by dots. */
  function DottedQuad(a: bv32): string
  {
    NatToString((a >> 24) as int) + "." + NatToString(((a >> 16) & 0xFF) as int) + "."
      + NatToString(((a >> 8) & 0xFF) as int) + "." + NatToString((a & 0xFF) as int)
  }

  /** One step of `fillnetifs`' second loop: the interface at `i` is the next one of the first loop's result. */
  lemma RemovalStep(cur: seq<Netif>, c1: seq<Netif>, i: int, j: int, seen: set<string>)
    requires 0 <= j < |c1| && i == |Keep(c1[..j], seen)| && cur == Keep(c1[..j], seen) + c1[j..]
    ensures i < |cur| && cur[i] == c1[j]
    ensures cur[i].name !in seen ==>
      EraseAt(cur, i) == Keep(c1[..j + 1], seen) + c1[j + 1..] && |Keep(c1[..j + 1], seen)| == i
    ensures cur[i].name in seen ==>
      cur == Keep(c1[..j + 1], seen) + c1[j + 1..] && |Keep(c1[..j + 1], seen)| == i + 1
  {
    KeepStep(c1, j, seen);
    assert c1[j..] == [c1[j]] + c1[j + 1..];
    if c1[j].name !in seen {
      assert cur[..i] == Keep(c1[..j], seen) && cur[i + 1..] == c1[j + 1..];
    }
  }

  /**
   * One qualifying entry of a name not yet seen, as `fillnetifs`' first loop
   * handles it: a known name with another address is replaced by a new
   * object, an unknown name is added, and both are counted.
   */
  method PlaceEntry(cur: seq<Netif>, a: IfAddr, essidOf: string -> string,
                    ghost m0: map<string, Netif>, ghost w: map<string, bv32>)
    returns (next: seq<Netif>, counted: bool)
    requires ByName(cur) && Qualifies(a) && a.name !in w
    requires AsMap(cur) == Merged(m0, w, essidOf)
    ensures ByName(next)
    ensures AsMap(next) == Merged(m0, w[a.name := a.ip], essidOf)
    ensures a.name !in Changed(m0, w)
    ensures Changed(m0, w[a.name := a.ip]) == Changed(m0, w) + (if counted then {a.name} else {})
  {
    MergedStep(m0, w, a.name, a.ip, essidOf);
    var i := Find(cur, a.name);
    if i >= 0 {
      AsMapAt(cur, i);
      if cur[i].addr != a.ip {
        ReplaceAt(cur, i, Netif(a.name, a.ip, essidOf(a.name)));
        var rest := EraseAt(cur, i);
        next := InsertByName(rest, Netif(a.name, a.ip, essidOf(a.name)));
        counted := true;
      } else {
        assert AsMap(cur) == AsMap(cur)[a.name := cur[i]];
        next := cur;
        counted := false;
      }
    } else {
      InsertNew(cur, Netif(a.name, a.ip, essidOf(a.name)));
      next := InsertByName(cur, Netif(a.name, a.ip, essidOf(a.name)));
      counted := true;
    }
  }

  lemma KeysUpdate(w: map<string, bv32>, n: string, ip: bv32)
    ensures w[n := ip].Keys == w.Keys + {n}
  {
  }

  /** What the first loop of `fillnetifs` has established after `k` entries. */
  ghost predicate MergedUpTo(m0: map<string, Netif>, entries: seq<IfAddr>, k: int, essidOf: string -> string,
                             cur: seq<Netif>, seen: set<string>, updates: int)
  {
    && 0 <= k <= |entries|
    && ByName(cur)
    && seen == WantedUpTo(entries, k).Keys
    && AsMap(cur) == Merged(m0, WantedUpTo(entries, k), essidOf)
    && updates == |Changed(m0, WantedUpTo(entries, k))|
  }

  /**
   * The body of the first loop of `fillnetifs`: an entry without an address,
   * not IPv4, loopback, multicast or of a name already seen is skipped;
   * otherwise it is placed, counted when placed anew, and its name is seen.
   */
  method MergeEntry(m0: map<string, Netif>, entries: seq<IfAddr>, k: int, essidOf: string -> string,
                    cur: seq<Netif>, seen: set<string>, updates: nat)
    returns (next: seq<Netif>, nextSeen: set<string>, nextUpdates: nat)
    requires MergedUpTo(m0, entries, k, essidOf, cur, seen, updates) && k < |entries|
    ensures MergedUpTo(m0, entries, k + 1, essidOf, next, nextSeen, nextUpdates)
  {
    var a := entries[k];
    ghost var w := WantedUpTo(entries, k);
    WantedStep(entries, k);
    next, nextSeen, nextUpdates := cur, seen, updates;
    if a.hasAddr && a.family == AfInet && !IsLoopback(a.ip) && !IsMulticast(a.ip) && a.name !in seen {
      KeysUpdate(w, a.name, a.ip);
      var counted;
      next, counted := PlaceEntry(cur, a, essidOf, m0, w);
      if counted {
        nextUpdates := updates + 1;
      }
      nextSeen := seen + {a.name};
    }
  }

  /** One more entry adds its name and address when it qualifies and its name is new. */
  lemma WantedStep(es: seq<IfAddr>, k: nat)
    requires k < |es|
    ensures var w := WantedUpTo(es, k);
      WantedUpTo(es, k + 1) == if Qualifies(es[k]) && es[k].name !in w then w[es[k].name := es[k].ip] else w
  {
  }

  /** The first loop of `fillnetifs`. */
  method MergeEntries(s0: seq<Netif>, entries: seq<IfAddr>, essidOf: string -> string)
    returns (cur: seq<Netif>, seen: set<string>, updates: nat)
    requires ByName(s0)
    ensures ByName(cur) && seen == Wanted(entries).Keys
    ensures AsMap(cur) == Merged(AsMap(s0), Wanted(entries), essidOf)
    ensures updates == |Changed(AsMap(s0), Wanted(entries))|
  {
    cur, seen, updates := s0, {}, 0;
    var k := 0;
    assert AsMap(s0) == Merged(AsMap(s0), map[], essidOf);
    while k < |entries|
      invariant MergedUpTo(AsMap(s0), entries, k, essidOf, cur, seen, updates)
    {
      cur, seen, updates := MergeEntry(AsMap(s0), entries, k, essidOf, cur, seen, updates);
      k := k + 1;
    }
    assert seen == Wanted(entries).Keys;
  }

  /** The second loop of `fillnetifs`: every interface whose name was not seen is erased and counted. */
  method DropUnseen(c1: seq<Netif>, seen: set<string>) returns (cur: seq<Netif>, dropped: nat)
    ensures cur == Keep(c1, seen) && dropped == |c1| - |cur|
  {
    cur := c1;
    dropped := 0;
    ghost var j := 0;
    var i := 0;
    while i < |cur|
      invariant 0 <= j <= |c1| && i == |Keep(c1[..j], seen)|
      invariant cur == Keep(c1[..j], seen) + c1[j..]
      invariant dropped == j - i
      decreases |cur| - i
    {
      RemovalStep(cur, c1, i, j, seen);
      if cur[i].name !in seen {
        cur := EraseAt(cur, i);
        dropped := dropped + 1;
      } else {
        i := i + 1;
      }
      j := j + 1;
    }
    assert c1[..j] == c1;
  }

  /** After the second loop exactly the wanted names are left, with the wanted addresses. */
  lemma FillMap(s0: seq<Netif>, c1: seq<Netif>, w: map<string, bv32>, essidOf: string -> string)
    requires ByName(c1) && AsMap(c1) == Merged(AsMap(s0), w, essidOf)
    ensures ByName(Keep(c1, w.Keys))
    ensures AsMap(Keep(c1, w.Keys)) == Reconciled(AsMap(s0), w, essidOf)
  {
    KeepByName(c1, w.Keys);
    KeepMap(c1, w.Keys);
    assert Restrict(Merged(AsMap(s0), w, essidOf), w.Keys) == Reconciled(AsMap(s0), w, essidOf);
  }

  /** The second loop counts one update per old name that is no longer wanted. */
  lemma FillCount(s0: seq<Netif>, c1: seq<Netif>, w: map<string, bv32>, essidOf: string -> string)
    requires ByName(c1) && AsMap(c1) == Merged(AsMap(s0), w, essidOf)
    ensures |c1| - |Keep(c1, w.Keys)| == |AsMap(s0).Keys - w.Keys|
  {
    KeepCount(c1, w.Keys);
    MergedKeys(AsMap(s0), w, essidOf);
    assert Names(c1) - w.Keys == AsMap(s0).Keys - w.Keys;
  }

  /** What `fillnetifs` leaves and returns, and that it returns 0 exactly when nothing changed. */
  lemma FillResult(s0: seq<Netif>, c1: seq<Netif>, w: map<string, bv32>, essidOf: string -> string)
    requires ByName(s0) && ByName(c1)
    requires AsMap(c1) == Merged(AsMap(s0), w, essidOf)
    ensures ByName(Keep(c1, w.Keys))
    ensures AsMap(Keep(c1, w.Keys)) == Reconciled(AsMap(s0), w, essidOf)
    ensures |Changed(AsMap(s0), w)| + (|c1| - |Keep(c1, w.Keys)|) == Updates(AsMap(s0), w)
    ensures Updates(AsMap(s0), w) == 0 <==> Keep(c1, w.Keys) == s0
  {
    FillMap(s0, c1, w, essidOf);
    FillCount(s0, c1, w, essidOf);
    AsMapKeyed(s0);
    UpdatesZero(AsMap(s0), w, essidOf);
    if Updates(AsMap(s0), w) == 0 {
      ByNameUnique(Keep(c1, w.Keys), s0);
    }
  }

  // -----------------------------------------------------------------------
  // The page.
  // -----------------------------------------------------------------------

  /** `NetworkPage`: the interface set, the interface last shown, and the pending change count. */
  class NetworkPage {
    var netifs: seq<Netif>
    /** Position of the iterator `last`. */
    var last: int
    var change: nat

    ghost predicate Valid()
      reads this
    {
      ByName(netifs) && (change == 0 && netifs != [] ==> 0 <= last < |netifs|)
    }

    /** The iterator `last` starts singular; the model starts it at 0. */
    constructor()
      ensures Valid() && netifs == [] && last == 0 && change == 0
    {
      netifs := [];
      last := 0;
      change := 0;
    }

    /**
     * `fillnetifs`: reconcile the set with the interface list and count the
     * updates. `essidOf` is what the wireless query reports for a new
     * interface object.
     */
    method FillNetifs(entries: seq<IfAddr>, essidOf: string -> string) returns (updates: nat)
      requires ByName(netifs)
      modifies this
      ensures ByName(netifs)
      ensures AsMap(netifs) == Reconciled(AsMap(old(netifs)), Wanted(entries), essidOf)
      ensures updates == Updates(AsMap(old(netifs)), Wanted(entries))
      ensures updates == 0 <==> netifs == old(netifs)
      ensures last == old(last) && change == old(change)
    {
      var cur, seen, counted := MergeEntries(netifs, entries, essidOf);
      var kept, dropped := DropUnseen(cur, seen);
      FillResult(netifs, cur, Wanted(entries), essidOf);
      netifs := kept;
      updates := counted + dropped;
    }

    /** `select`: refill the set, or its update count into `change`, then decide. */
    method Select(di: DisplayInfo, sc: Cause, entries: seq<IfAddr>, essidOf: string -> string)
      returns (r: Response)
      requires Valid()
      modifies this
      ensures Valid()
      ensures AsMap(netifs) == Reconciled(AsMap(old(netifs)), Wanted(entries), essidOf)
      ensures change == BitOr(old(change), Updates(AsMap(old(netifs)), Wanted(entries)))
      ensures last == old(last)
      ensures r == NetworkSelect(di, sc, netifs != [])
    {
      var updates := FillNetifs(entries, essidOf);
      change := BitOr(change, updates);
      BitOrZero(old(change), updates);
      if sc == SelectUser || (netifs != [] && di.goodfix && di.now < di.start - BeforeTotality) {
        r := SelectPage;
      } else {
        r := SkipPage;
      }
    }

    /**
     * `show`, with the emptiness test made first: the first interface after
     * a change, otherwise the next one with wrap-around, as text lines
     * (row, text).
     */
    method Show() returns (shown: Shown, lines: seq<(int, string)>)
      requires Valid()
      modifies this
      ensures Valid() && netifs == old(netifs)
      ensures (shown, last, change) == ShowChecked(|netifs|, old(last), old(change))
      ensures shown == NoNetworks ==> lines == [(0, "No networks")]
      ensures shown != NoNetworks ==> 0 <= last < |netifs| && lines == InterfaceLines(netifs[last])
    {
      if netifs == [] {
        shown, lines := NoNetworks, [(0, "No networks")];
        return;
      }
      if change != 0 {
        last := 0;
      } else {
        last := last + 1;
        if last == |netifs| {
          last := 0;
        }
      }
      change := 0;
      shown := Interface(last);
      lines := InterfaceLines(netifs[last]);
    }
  }

  /**
   * The interface of a shown page disappears, the user asks for the page
   * again: the set is empty with `change` set, where `show` as written reads
   * the interface at `end()`.
   */
  method VanishedInterface(di: DisplayInfo, essidOf: string -> string) returns (asWritten: Shown, checked: Shown)
    ensures asWritten == PastTheEnd && checked == NoNetworks
  {
    var page := new NetworkPage();
    var r := page.Select(di, SelectUser, [IfAddr("eth0", true, AfInet, 0xC0A8_0001)], essidOf);
    var lines;
    checked, lines := page.Show();
    r := page.Select(di, SelectUser, [], essidOf);
    assert page.change != 0 by {
      BitOrZero(0, 1);
    }
    asWritten := ShowAsWritten(|page.netifs|, page.last, page.change).0;
    checked, lines := page.Show();
  }
}
