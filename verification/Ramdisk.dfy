/**
 * The ramdisk of a boot image: `backup` records what patching changed, inside the patched archive itself, and
 * `restore` undoes it. Entries are kept in the order of their names, and both walk in that order.
 */
module Ramdisk {
  import opened Base
  import opened Names
  import opened Cpio

  type Entries = map<string, Entry>

  const BACKUP := ".backup"
  const BACKUP_DIR := ".backup/"
  const RMLIST := ".backup/.rmlist"
  const S_IFDIR := 0x4000
  const S_IFREG := 0x8000

  predicate StartsWith(s: string, prefix: string) {
    prefix <= s
  }

  /** Names as a loaded archive has them. */
  ghost predicate CNames(m: Entries) {
    forall k :: k in m ==> '\0' !in k
  }

  // ------------------------------------------------------------ removing

  /** Whether `rm` takes a name: the very name or, recursively, anything below it. */
  predicate Removes(k: string, name: string, r: bool) {
    k == name || (r && StartsWith(k, name + "/"))
  }

  function Without(m: Entries, name: string, r: bool): (n: Entries) {
    map k | k in m && !Removes(k, name, r) :: m[k]
  }

  /** `cpio::rm`: a walk over the entries; without recursion it stops at the one it removes. */
  method Rm(entries: Entries, name: string, r: bool) returns (m: Entries)
    ensures m == Without(entries, name, r)
  {
    m := entries;
    var it := First(entries.Keys);
    WalkStarts(entries.Keys);
    WalkEnds(entries.Keys);
    while it.Some?
      invariant it.Some? ==> it.value in entries
      invariant forall k :: k in m <==> k in entries && (k in Ahead(entries.Keys, it) || !Removes(k, name, r))
      invariant forall k :: k in m ==> m[k] == entries[k]
      decreases Ahead(entries.Keys, it)
    {
      var k := it.value;
      WalkSteps(entries.Keys, k);
      it := Next(entries.Keys, k);
      if Removes(k, name, r) {
        m := m - {k};
        if !r {
          assert m == Without(entries, name, r);
          return;
        }
      }
    }
  }

  // ------------------------------------------------------------ backup

  /** An entry of the stock ramdisk that patching removed, or whose contents it changed. */
  predicate Backed(stock: Entries, patched: Entries, k: string) {
    k in stock && (k !in patched || stock[k].data != patched[k].data)
  }

  lemma KeepsApart()
    ensures forall k, l :: BACKUP_DIR + k == BACKUP_DIR + l ==> k == l
  {
    forall k: string, l: string | BACKUP_DIR + k == BACKUP_DIR + l ensures k == l {
      assert (BACKUP_DIR + k)[8..] == k && (BACKUP_DIR + l)[8..] == l;
    }
  }

  /** What `backup` puts into the patched archive for the stock entries it has to keep. */
  function Kept(stock: Entries, patched: Entries, names: set<string>): (m: Entries)
    requires names <= stock.Keys
  {
    KeepsApart();
    map k | k in names && Backed(stock, patched, k) :: (BACKUP_DIR + k) := stock[k]
  }

  /** The names that patching added, each with a NUL after it, from a place of the walk on. */
  ghost function NewNames(stock: Entries, patched: Entries, it: Option<string>): string
    requires it.Some? ==> it.value in patched
    decreases Ahead(patched.Keys, it)
  {
    if it.None? then []
    else
      WalkSteps(patched.Keys, it.value);
      (if it.value in stock then [] else it.value + ['\0']) + NewNames(stock, patched, Next(patched.Keys, it.value))
  }

  const BACKUP_ENTRY := Entry(S_IFDIR, 0, 0, [])

  function ListEntry(names: string): Entry {
    Entry(S_IFREG, 0, 0, names)
  }

  ghost function BackedUp(patched0: Entries, stock0: Entries): (m: Entries) {
    var (stock, patched) := (Without(stock0, BACKUP, true), Without(patched0, BACKUP, true));
    var added := NewNames(stock, patched, First(patched.Keys));
    var bkup := map[BACKUP := BACKUP_ENTRY] + Kept(stock, patched, stock.Keys);
    var all := if added == [] then bkup else bkup[RMLIST := ListEntry(added)];
    if |all| > 1 then all + patched else patched
  }

  /** Two iterators have passed the same stretch of the order. */
  ghost predicate Abreast(stock: Entries, patched: Entries, lhs: Option<string>, rhs: Option<string>) {
    && (lhs.Some? ==> lhs.value in stock) && (rhs.Some? ==> rhs.value in patched)
    && (forall k :: k in stock && !NotYet(lhs, k) && rhs.Some? ==> Less(k, rhs.value))
    && (forall k :: k in patched && !NotYet(rhs, k) && lhs.Some? ==> Less(k, lhs.value))
  }

  lemma Ordered(it: string, k: string)
    ensures !NotYet(Some(it), k) <==> Less(k, it)
  {
    LessTotal(it, k);
  }

  /** The name under the left iterator comes first: it is not in the patched archive. */
  lemma LeftFirst(stock: Entries, patched: Entries, l: string, rhs: Option<string>)
    requires Abreast(stock, patched, Some(l), rhs) && (rhs.Some? ==> Less(l, rhs.value))
    ensures l !in patched && Abreast(stock, patched, Next(stock.Keys, l), rhs)
  {
    if l in patched {
      LessTotal(l, l);
      if rhs.Some? { Ordered(rhs.value, l); }
    }
    LeftPassed(stock, patched, l, rhs);
  }

  lemma LeftPassed(stock: Entries, patched: Entries, l: string, rhs: Option<string>)
    requires Abreast(stock, patched, Some(l), rhs) && (rhs.Some? ==> Less(l, rhs.value))
    ensures Abreast(stock, patched, Next(stock.Keys, l), rhs)
  {
    WalkSteps(stock.Keys, l);
    var next := Next(stock.Keys, l);
    forall k | k in stock && !NotYet(next, k) && rhs.Some? ensures Less(k, rhs.value) {
      assert k in Ahead(stock.Keys, next) <==> NotYet(next, k);
      assert k in Ahead(stock.Keys, Some(l)) <==> NotYet(Some(l), k);
    }
    forall k | k in patched && !NotYet(rhs, k) && next.Some? ensures Less(k, next.value) {
      LessTransitive(k, l, next.value);
    }
  }

  lemma RightFirst(stock: Entries, patched: Entries, lhs: Option<string>, r: string)
    requires Abreast(stock, patched, lhs, Some(r)) && (lhs.Some? ==> Less(r, lhs.value))
    ensures r !in stock && Abreast(stock, patched, lhs, Next(patched.Keys, r))
  {
    if r in stock {
      LessTotal(r, r);
      if lhs.Some? { Ordered(lhs.value, r); }
    }
    WalkSteps(patched.Keys, r);
    var next := Next(patched.Keys, r);
    forall k | k in patched && !NotYet(next, k) && lhs.Some? ensures Less(k, lhs.value) {
      assert k in Ahead(patched.Keys, next) <==> NotYet(next, k);
      assert k in Ahead(patched.Keys, Some(r)) <==> NotYet(Some(r), k);
    }
    forall k | k in stock && !NotYet(lhs, k) && next.Some? ensures Less(k, next.value) {
      LessTransitive(k, r, next.value);
    }
  }

  lemma BothAtOnce(stock: Entries, patched: Entries, k: string)
    requires Abreast(stock, patched, Some(k), Some(k))
    ensures Abreast(stock, patched, Next(stock.Keys, k), Next(patched.Keys, k))
  {
    WalkSteps(stock.Keys, k);
    WalkSteps(patched.Keys, k);
    var l, r := Next(stock.Keys, k), Next(patched.Keys, k);
    forall x | x in stock && !NotYet(l, x) && r.Some? ensures Less(x, r.value) {
      assert x in Ahead(stock.Keys, l) <==> NotYet(l, x);
      assert x in Ahead(stock.Keys, Some(k)) <==> NotYet(Some(k), x);
      if x != k { LessTransitive(x, k, r.value); }
    }
    forall x | x in patched && !NotYet(r, x) && l.Some? ensures Less(x, l.value) {
      assert x in Ahead(patched.Keys, r) <==> NotYet(r, x);
      assert x in Ahead(patched.Keys, Some(k)) <==> NotYet(Some(k), x);
      if x != k { LessTransitive(x, k, l.value); }
    }
  }

  ghost function Behind(keys: set<string>, it: Option<string>): set<string> {
    keys - Ahead(keys, it)
  }

  lemma KeptNext(stock: Entries, patched: Entries, k: string)
    requires k in stock
    ensures Kept(stock, patched, Behind(stock.Keys, Next(stock.Keys, k))) ==
            if Backed(stock, patched, k) then Kept(stock, patched, Behind(stock.Keys, Some(k)))[BACKUP_DIR
                + k := stock[k]]
            else Kept(stock, patched, Behind(stock.Keys, Some(k)))
  {
    WalkSteps(stock.Keys, k);
    KeepsApart();
    assert Behind(stock.Keys, Next(stock.Keys, k)) == Behind(stock.Keys, Some(k)) + {k};
  }

  lemma NewNamesNext(stock: Entries, patched: Entries, k: string)
    requires k in patched
    ensures Next(patched.Keys, k).Some? ==> Next(patched.Keys, k).value in patched
    ensures NewNames(stock, patched, Some(k)) ==
            (if k in stock then [] else k + ['\0']) + NewNames(stock, patched, Next(patched.Keys, k))
  {
    WalkSteps(patched.Keys, k);
  }

  ghost predicate Comparing(stock: Entries, patched: Entries, lhs: Option<string>, rhs: Option<string>, bkup: Entries,
      remv: string) {
    && Abreast(stock, patched, lhs, rhs)
    && bkup == map[BACKUP := BACKUP_ENTRY] + Kept(stock, patched, Behind(stock.Keys, lhs))
    && remv + NewNames(stock, patched, rhs) == NewNames(stock, patched, First(patched.Keys))
  }

  lemma ComparingHas(stock: Entries, patched: Entries, lhs: Option<string>, rhs: Option<string>, bkup: Entries,
      remv: string)
    requires Comparing(stock, patched, lhs, rhs, bkup, remv)
    ensures (lhs.Some? ==> lhs.value in stock) && (rhs.Some? ==> rhs.value in patched)
            && Abreast(stock, patched, lhs, rhs)
    ensures bkup == map[BACKUP := BACKUP_ENTRY] + Kept(stock, patched, Behind(stock.Keys, lhs))
    ensures remv + NewNames(stock, patched, rhs) == NewNames(stock, patched, First(patched.Keys))
  {
  }

  /** An entry of the stock archive passed, and with it the patched one if it has the same name. */
  lemma CompareLeft(stock: Entries, patched: Entries, l: string, rhs: Option<string>, bkup: Entries, remv: string)
    requires Comparing(stock, patched, Some(l), rhs, bkup, remv) && (rhs.Some? ==> Less(l, rhs.value))
    ensures l in stock && Comparing(stock, patched, Next(stock.Keys, l), rhs, bkup[BACKUP_DIR + l := stock[l]], remv)
    ensures Ahead(stock.Keys, Next(stock.Keys, l)) < Ahead(stock.Keys, Some(l))
  {
    LeftFirst(stock, patched, l, rhs);
    KeptNext(stock, patched, l);
    WalkSteps(stock.Keys, l);
    hide Abreast, Kept, Behind, NewNames, Ahead;
    BackupsMeet(Kept(stock, patched, Behind(stock.Keys, Some(l))), l, stock[l]);
  }

  lemma BackupsMeet(kept: Entries, k: string, e: Entry)
    ensures (map[BACKUP := BACKUP_ENTRY] + kept)[BACKUP_DIR + k := e] == map[BACKUP := BACKUP_ENTRY]
            + kept[BACKUP_DIR + k := e]
  {
  }

  lemma CompareBoth(stock: Entries, patched: Entries, k: string, bkup: Entries, remv: string)
    requires Comparing(stock, patched, Some(k), Some(k), bkup, remv)
    ensures k in stock && k in patched
    ensures Comparing(stock, patched, Next(stock.Keys, k), Next(patched.Keys, k),
                      if stock[k].data != patched[k].data then bkup[BACKUP_DIR + k := stock[k]] else bkup, remv)
    ensures Ahead(stock.Keys, Next(stock.Keys, k)) < Ahead(stock.Keys, Some(k))
  {
    BothAtOnce(stock, patched, k);
    KeptNext(stock, patched, k);
    NewNamesNext(stock, patched, k);
    WalkSteps(stock.Keys, k);
    hide Abreast, Kept, Behind, NewNames, Ahead;
    assert [] + NewNames(stock, patched, Next(patched.Keys, k)) == NewNames(stock, patched, Next(patched.Keys, k));
    BackupsMeet(Kept(stock, patched, Behind(stock.Keys, Some(k))), k, stock[k]);
  }

  lemma CompareRight(stock: Entries, patched: Entries, lhs: Option<string>, r: string, bkup: Entries, remv: string)
    requires Comparing(stock, patched, lhs, Some(r), bkup, remv) && (lhs.Some? ==> Less(r, lhs.value))
    ensures r in patched && Comparing(stock, patched, lhs, Next(patched.Keys, r), bkup, remv + r + ['\0'])
    ensures Ahead(patched.Keys, Next(patched.Keys, r)) < Ahead(patched.Keys, Some(r))
  {
    hide *;
    ComparingHas(stock, patched, lhs, Some(r), bkup, remv);
    RightFirst(stock, patched, lhs, r);
    NewNamesNext(stock, patched, r);
    AheadShrinks(patched.Keys, r);
    NamesMeet(remv, r, NewNames(stock, patched, Next(patched.Keys, r)));
    ComparingIs(stock, patched, lhs, Next(patched.Keys, r), bkup, remv + r + ['\0']);
  }

  lemma AheadShrinks(keys: set<string>, k: string)
    requires k in keys
    ensures Ahead(keys, Next(keys, k)) < Ahead(keys, Some(k))
  {
    WalkSteps(keys, k);
  }

  lemma NamesMeet(remv: string, r: string, rest: string)
    ensures remv + r + ['\0'] + rest == remv + (r + ['\0'] + rest)
  {
  }

  lemma ComparingIs(stock: Entries, patched: Entries, lhs: Option<string>, rhs: Option<string>, bkup: Entries,
      remv: string)
    requires Abreast(stock, patched, lhs, rhs) && (rhs.Some? ==> rhs.value in patched)
    requires bkup == map[BACKUP := BACKUP_ENTRY] + Kept(stock, patched, Behind(stock.Keys, lhs))
    requires remv + NewNames(stock, patched, rhs) == NewNames(stock, patched, First(patched.Keys))
    ensures Comparing(stock, patched, lhs, rhs, bkup, remv)
  {
  }

  /** The comparing walk over both archives: what has to be kept, and the names of what is new. */
  method CompareEntries(stock: Entries, patched: Entries) returns (bkup: Entries, remv: string)
    ensures bkup == map[BACKUP := BACKUP_ENTRY] + Kept(stock, patched, stock.Keys)
    ensures remv == NewNames(stock, patched, First(patched.Keys))
  {
    bkup, remv := map[BACKUP := BACKUP_ENTRY], [];
    var lhs, rhs := First(stock.Keys), First(patched.Keys);
    CompareStarts(stock, patched);
    while lhs.Some? || rhs.Some?
      invariant Comparing(stock, patched, lhs, rhs, bkup, remv)
      decreases Ahead(stock.Keys, lhs), Ahead(patched.Keys, rhs)
    {
      hide Comparing, Ahead, Less;
      ComparingHas(stock, patched, lhs, rhs, bkup, remv);
      var res := if lhs.None? then 1 else if rhs.None? then -1 else Compare(lhs.value, rhs.value);
      if res > 0 {
        if lhs.Some? { LessTotal(lhs.value, rhs.value); }
        CompareRight(stock, patched, lhs, rhs.value, bkup, remv);
        remv := remv + rhs.value + ['\0'];
        rhs := Next(patched.Keys, rhs.value);
      } else if res < 0 {
        CompareLeft(stock, patched, lhs.value, rhs, bkup, remv);
        bkup := bkup[BACKUP_DIR + lhs.value := stock[lhs.value]];
        lhs := Next(stock.Keys, lhs.value);
      } else {
        CompareBoth(stock, patched, lhs.value, bkup, remv);
        if stock[lhs.value].data != patched[rhs.value].data {
          bkup := bkup[BACKUP_DIR + lhs.value := stock[lhs.value]];
        }
        lhs, rhs := Next(stock.Keys, lhs.value), Next(patched.Keys, rhs.value);
      }
    }
  }

  /** The sign of `compare`. */
  function Compare(a: string, b: string): (c: int)
    ensures c < 0 <==> Less(a, b)
    ensures c == 0 <==> a == b
  {
    LessTotal(a, b);
    if a == b then 0 else if Less(a, b) then -1 else 1
  }

  lemma CompareStarts(stock: Entries, patched: Entries)
    ensures Abreast(stock, patched, First(stock.Keys), First(patched.Keys))
    ensures Kept(stock, patched, Behind(stock.Keys, First(stock.Keys))) == map[]
    ensures [] + NewNames(stock, patched, First(patched.Keys)) == NewNames(stock, patched, First(patched.Keys))
    ensures Behind(stock.Keys, None) == stock.Keys
    ensures NewNames(stock, patched, None) == []
  {
    WalkStarts(stock.Keys);
    WalkStarts(patched.Keys);
    WalkEnds(stock.Keys);
    assert Behind(stock.Keys, First(stock.Keys)) == {};
    assert forall k :: k in stock ==> k in Ahead(stock.Keys, First(stock.Keys));
    assert forall k :: k in patched ==> k in Ahead(patched.Keys, First(patched.Keys));
  }

  /** `backup`: of the stock archive and of the patched one, without what earlier backups left in them. */
  method Backup(patched0: Entries, stock0: Entries) returns (m: Entries)
    ensures m == BackedUp(patched0, stock0)
  {
    hide Without, Kept, NewNames;
    var stock := Rm(stock0, BACKUP, true);
    var patched := Rm(patched0, BACKUP, true);
    var bkup, remv := CompareEntries(stock, patched);
    if remv != [] {
      bkup := bkup[RMLIST := ListEntry(remv)];
    }
    m := if |bkup| > 1 then bkup + patched else patched;
  }

  // ------------------------------------------------------------ restore

  /** Left-overs of patching that are removed by name. */
  predicate Known(k: string) {
    StartsWith(k, "magisk") || k == "overlay/init.magisk.rc" || k == "sbin/magic_mask.sh" || k == "init.magisk.rc"
  }

  /** All characters of some names, and one more for each. */
  ghost function Weight(s: set<string>): nat {
    if s == {} then 0 else var k := LeastOf(s); |k| + 1 + Weight(s - {k})
  }

  lemma {:induction false} WeightWithout(s: set<string>, k: string)
    requires k in s
    ensures Weight(s) == |k| + 1 + Weight(s - {k})
    decreases s
  {
    var l := LeastOf(s);
    if k != l {
      WeightWithout(s - {l}, k);
      assert IsLeast(s - {k}, l);
      LeastUnique(s - {k});
      assert IsLeastOf(s - {k}, l) && IsLeastOf(s - {k}, LeastOf(s - {k}));
      assert s - {k} - {l} == s - {l} - {k};
    }
  }

  /** `mv` of an entry: whatever had the new name is gone. */
  function Moved(m: Entries, k: string, to: string): (n: Entries)
    requires k in m && to != k
    ensures n.Keys == m.Keys - {k} + {to}
  {
    (m - {k})[to := m[k]]
  }

  lemma MovedLighter(keys: set<string>, k: string)
    requires k in keys && |k| >= 8
    ensures Weight(keys - {k} + {k[8..]}) < Weight(keys)
  {
    var to := k[8..];
    WeightWithout(keys, k);
    if to in keys {
      assert keys - {k} + {to} == keys - {k};
    } else {
      WeightWithout(keys - {k} + {to}, to);
      assert keys - {k} + {to} - {to} == keys - {k};
    }
  }

  /**
   * The walk of `restore`, whose iterator is moved on before the entry behind it is removed or renamed. None: the entry
   * under the iterator is the one that `mv` erases, and what the iterator then does is not defined.
   */
  ghost function RestoreFrom(m: Entries, it: Option<string>): Option<Entries>
    requires it.Some? ==> it.value in m
    decreases Weight(m.Keys), Ahead(m.Keys, it)
  {
    if it.None? then Some(m)
    else
      var k := it.value;
      var next := Next(m.Keys, k);
      WalkSteps(m.Keys, k);
      WeightWithout(m.Keys, k);
      assert (m - {k}).Keys == m.Keys - {k};
      if StartsWith(k, BACKUP) then
        if |k| == 7 || k[8..] == ".magisk" then RestoreFrom(m - {k}, next)
        else if next == Some(k[8..]) then None
        else
          MovedLighter(m.Keys, k);
          RestoreFrom(Moved(m, k, k[8..]), next)
      else if Known(k) then RestoreFrom(m - {k}, next)
      else RestoreFrom(m, next)
  }

  /** The names of a list, each with a NUL after it, removed; None where the list is none, or names itself. */
  function Removed(m: Entries, data: string): Option<Entries>
    decreases |data|
  {
    if data == [] then Some(m)
    else
      match CString(data)
      case None => None
      case Some(n) =>
        if n == RMLIST then None else Removed(m - {n}, data[|n| + 1..])
  }

  ghost function Restored(m: Entries): Option<Entries> {
    var listed := if RMLIST in m then Removed(m, m[RMLIST].data) else Some(m);
    match listed
    case None => None
    case Some(n) => var n' := n - {RMLIST}; RestoreFrom(n', First(n'.Keys))
  }

  method RemoveListed(entries: Entries, data: string) returns (m: Option<Entries>)
    ensures m == Removed(entries, data)
  {
    var rest, n := data, entries;
    while rest != []
      invariant Removed(n, rest) == Removed(entries, data)
      decreases |rest|
    {
      var file := CString(rest);
      if file.None? || file.value == RMLIST { return None; }
      var n' := Rm(n, file.value, false);
      assert n' == n - {file.value};
      n, rest := n', rest[|file.value| + 1..];
    }
    m := Some(n);
  }

  method RestoreWalk(entries: Entries) returns (r: Option<Entries>)
    ensures r == RestoreFrom(entries, First(entries.Keys))
  {
    var m := entries;
    var it := First(m.Keys);
    while it.Some?
      invariant (it.Some? ==> it.value in m) && RestoreFrom(m, it) == RestoreFrom(entries, First(entries.Keys))
      decreases Weight(m.Keys), Ahead(m.Keys, it)
    {
      var cur := it.value;
      it := Next(m.Keys, cur);
      WalkSteps(m.Keys, cur);
      WeightWithout(m.Keys, cur);
      assert (m - {cur}).Keys == m.Keys - {cur};
      if StartsWith(cur, BACKUP) {
        if |cur| == 7 || cur[8..] == ".magisk" {
          m := m - {cur};
        } else {
          if it == Some(cur[8..]) { return None; }
          MovedLighter(m.Keys, cur);
          m := Moved(m, cur, cur[8..]);
        }
      } else if Known(cur) {
        m := m - {cur};
      }
    }
    r := Some(m);
  }

  /** `restore`, of an archive that is not compressed. */
  method Restore(entries: Entries) returns (r: Option<Entries>)
    requires "ramdisk.cpio.xz" !in entries
    ensures r == Restored(entries)
  {
    var m := entries;
    if RMLIST in m {
      var n := RemoveListed(m, m[RMLIST].data);
      if n.None? { return None; }
      m := n.value - {RMLIST};
    } else {
      assert m - {RMLIST} == m;
    }
    r := RestoreWalk(m);
  }

  // ------------------------------------------------------------ backup, then restore

  /** A name of the stock ramdisk that is none of those the tools use or remove. */
  predicate Ordinary(k: string) {
    && !(".backup" <= k) && !("magisk" <= k)
    && k !in {"overlay/init.magisk.rc", "sbin/magic_mask.sh", "init.magisk.rc"}
    && k !in {".magisk", ".rmlist", "ramdisk.cpio.xz"} && '\0' !in k
  }

  ghost predicate AllOrdinary(m: Entries) {
    forall k :: k in m ==> Ordinary(k)
  }

  /**
   * The iterator is left on an entry that is erased: `x` is in the patched archive too, and in the order of names
   * nothing of the stock ramdisk stands between ".backup/x" and `x`.
   */
  ghost predicate Adjacent(stock: Entries, patched: Entries, x: string) {
    x in patched && Less(BACKUP_DIR + x, x) && forall s :: s in stock ==> !(Less(BACKUP_DIR + x, s) && Less(s, x))
  }

  ghost predicate Greatest(left: set<string>, x: string) {
    x in left && forall y :: y in left && y != x ==> Less(y, x)
  }

  ghost predicate Dangles(stock: Entries, patched: Entries, left: set<string>) {
    exists x :: Greatest(left, x) && Adjacent(stock, patched, x)
  }

  ghost function BackedNames(stock: Entries, patched: Entries): set<string> {
    set k | k in stock && Backed(stock, patched, k)
  }

  /** The archive while it is being restored: `left` are the names still under ".backup/". */
  ghost function Midway(stock: Entries, patched: Entries, left: set<string>, dir: bool): Entries
    requires left <= BackedNames(stock, patched)
  {
    KeepsApart();
    (if dir then map[BACKUP := BACKUP_ENTRY] else map[])
    + (map k | k in left :: (BACKUP_DIR + k) := stock[k])
    + (map k | k in stock && (k in left ==> k in patched) ::
         if k in left || !Backed(stock, patched, k) then patched[k] else stock[k])
  }

  /** A name between two of one directory is in that directory. */
  lemma {:induction false} Between(p: string, x: string, z: string, y: string)
    requires Less(p + x, z) && (Less(z, p + y) || z == p + y)
    ensures p <= z
    decreases |p|
  {
    if z == p + y {
    } else if p != [] {
      LessTotal(p + x, z);
      assert (p + x)[0] == p[0] == (p + y)[0] && (p + x)[1..] == p[1..] + x && (p + y)[1..] == p[1..] + y;
      Between(p[1..], x, z[1..], y);
    }
  }

  lemma DirAfter(x: string)
    ensures Less(BACKUP, BACKUP_DIR + x) && !Less(BACKUP_DIR + x, BACKUP) && BACKUP <= BACKUP_DIR + x
            && BACKUP_DIR + x != BACKUP
    ensures (BACKUP_DIR + x)[8..] == x && |BACKUP_DIR + x| == 8 + |x|
  {
    assert BACKUP_DIR == BACKUP + "/";
    LessPrefix(BACKUP, [], "/" + x);
    assert BACKUP + [] == BACKUP && BACKUP + ("/" + x) == BACKUP_DIR + x;
    LessTotal(BACKUP, BACKUP_DIR + x);
  }

  lemma MidwayHas(stock: Entries, patched: Entries, left: set<string>, dir: bool, k: string)
    requires left <= BackedNames(stock, patched) && AllOrdinary(stock)
    ensures var m := Midway(stock, patched, left, dir);
            && (k in m <==>
                (dir && k == BACKUP)
                || (BACKUP_DIR <= k && k[8..] in left)
                || (k in stock && (k in left ==> k in patched)))
            && (k in stock ==> k != BACKUP && !(BACKUP_DIR <= k))
  {
    var m := Midway(stock, patched, left, dir);
    if BACKUP_DIR <= k {
      assert k == BACKUP_DIR + k[8..];
      assert BACKUP <= k;
    }
    KeepsApart();
  }

  lemma MidwayMoves(stock: Entries, patched: Entries, left: set<string>, x: string)
    requires left <= BackedNames(stock, patched) && AllOrdinary(stock) && x in left
    ensures var m := Midway(stock, patched, left, false);
            BACKUP_DIR + x in m && Moved(m, BACKUP_DIR + x, x) == Midway(stock, patched, left - {x}, false)
  {
    hide *;
    var (m, k) := (Midway(stock, patched, left, false), BACKUP_DIR + x);
    DirAfter(x);
    BackupNames();
    MidwayHas(stock, patched, left, false, k);
    var (a, b) := (Moved(m, k, x), Midway(stock, patched, left - {x}, false));
    forall z ensures (z in a <==> z in b) && (z in a ==> a[z] == b[z]) {
      MidwayMovesAt(stock, patched, left, x, z);
    }
    assert a.Keys == b.Keys;
  }

  lemma MidwayMovesAt(stock: Entries, patched: Entries, left: set<string>, x: string, z: string)
    requires left <= BackedNames(stock, patched) && AllOrdinary(stock) && x in left
    requires BACKUP_DIR + x in Midway(stock, patched, left, false) && BACKUP_DIR + x != x
    ensures var (a, b) := (Moved(Midway(stock, patched, left, false), BACKUP_DIR + x, x),
            Midway(stock, patched, left - {x}, false));
            (z in a <==> z in b) && (z in a ==> a[z] == b[z])
  {
    hide *;
    var m := Midway(stock, patched, left, false);
    BackupNames();
    DirAfter(x);
    MidwayHas(stock, patched, left, false, z);
    MidwayHas(stock, patched, left - {x}, false, z);
    MidwayAt(stock, patched, left, false, z);
    MidwayAt(stock, patched, left - {x}, false, z);
    MidwayAt(stock, patched, left, false, BACKUP_DIR + x);
    MovedAt(m, BACKUP_DIR + x, x, z);
    LeftOrdinary(stock, patched, left, x);
    LeftBacked(stock, patched, left, x);
    if BACKUP_DIR <= z { assert z == BACKUP_DIR + z[8..]; }
  }

  lemma MovedAt(m: Entries, k: string, to: string, z: string)
    requires k in m && to != k
    ensures var n := Moved(m, k, to);
            (z in n <==> z == to || (z in m && z != k)) && (z in n ==> n[z] == if z == to then m[k] else m[z])
  {
  }

  lemma LeftBacked(stock: Entries, patched: Entries, left: set<string>, x: string)
    requires left <= BackedNames(stock, patched) && x in left
    ensures x in stock && Backed(stock, patched, x)
  {
  }

  /** What stands under a name midway. */
  lemma MidwayAt(stock: Entries, patched: Entries, left: set<string>, dir: bool, z: string)
    requires left <= BackedNames(stock, patched) && AllOrdinary(stock)
    ensures var m := Midway(stock, patched, left, dir);
            z in m ==>
              if BACKUP_DIR <= z then z[8..] in left && m[z] == stock[z[8..]]
              else if z in stock then m[z] == if (z in left && z in patched)
                  || !Backed(stock, patched, z) then patched[z] else stock[z]
              else m[z] == BACKUP_ENTRY
  {
    MidwayHas(stock, patched, left, dir, z);
    KeepsApart();
    if BACKUP_DIR <= z { assert z == BACKUP_DIR + z[8..]; }
  }

  /** The next name after ".backup/x" is `x` exactly when `x` is the last one left, and adjacent. */
  lemma NextIsSelf(stock: Entries, patched: Entries, left: set<string>, x: string)
    requires left <= BackedNames(stock, patched) && AllOrdinary(stock) && x in left
    requires forall y :: y in left && y != x ==> Less(x, y)
    ensures var m := Midway(stock, patched, left, false);
            Next(m.Keys, BACKUP_DIR + x) == Some(x) <==> left == {x} && Adjacent(stock, patched, x)
  {
    var (m, k) := (Midway(stock, patched, left, false), BACKUP_DIR + x);
    assert x in stock;
    DirAfter(x);
    if left == {x} {
      LastBackup(stock, patched, m, x);
    } else {
      TwoIn(left, x);
      var y :| y in left && y != x;
      LaterBackup(stock, patched, left, m, x, y);
    }
  }

  lemma TwoIn(left: set<string>, x: string)
    requires x in left
    ensures left == {x} || exists y :: y in left && y != x
  {
    if forall y :: y in left ==> y == x { assert left == {x}; }
  }

  lemma LastBackup(stock: Entries, patched: Entries, m: Entries, x: string)
    requires {x} <= BackedNames(stock, patched) && AllOrdinary(stock) && m == Midway(stock, patched, {x}, false)
    ensures Next(m.Keys, BACKUP_DIR + x) == Some(x) <==> Adjacent(stock, patched, x)
  {
    var k := BACKUP_DIR + x;
    hide Midway, Ordinary;
    forall s ensures s in m <==> s == k || (s in stock && (s == x ==> x in patched)) {
      MidwayHas(stock, patched, {x}, false, s);
      if BACKUP_DIR <= s { assert s == BACKUP_DIR + s[8..]; }
      DirAfter(x);
    }
    assert x in stock;
    var n := Next(m.Keys, k);
    LessTotal(k, k);
    forall s | s in stock ensures Less(s, x) ==> s != x && !Less(x, s) { LessTotal(s, x); }
    if n.Some? { LessTotal(n.value, x); }
  }

  lemma LaterBackup(stock: Entries, patched: Entries, left: set<string>, m: Entries, x: string, y: string)
    requires left <= BackedNames(stock, patched) && AllOrdinary(stock) && x in left && y in left && Less(x, y)
    requires m == Midway(stock, patched, left, false)
    ensures Next(m.Keys, BACKUP_DIR + x) != Some(x)
  {
    var (k, ky) := (BACKUP_DIR + x, BACKUP_DIR + y);
    DirAfter(y);
    MidwayHas(stock, patched, left, false, ky);
    LessPrefix(BACKUP_DIR, x, y);
    var n := Next(m.Keys, k).value;
    LessTotal(n, ky);
    Between(BACKUP_DIR, x, n, y);
    assert x in stock && Ordinary(x) && BACKUP <= BACKUP_DIR;
  }

  lemma DanglesLater(stock: Entries, patched: Entries, left: set<string>, x: string)
    requires x in left && forall y :: y in left && y != x ==> Less(x, y)
    ensures left == {x} ==>
            (Dangles(stock, patched, left) <==> Adjacent(stock, patched, x)) && !Dangles(stock, patched, left - {x})
    ensures left != {x} ==> (Dangles(stock, patched, left) <==> Dangles(stock, patched, left - {x}))
  {
    if left == {x} {
      assert Greatest(left, x);
    } else {
      TwoIn(left, x);
      forall z ensures Greatest(left, z) <==> Greatest(left - {x}, z) {
        var y :| y in left && y != x;
        if Greatest(left, z) && z == x { LessTotal(x, y); }
      }
    }
  }

  /** What the walk of `restore` still has to do lies ahead of it. */
  ghost predicate StillAhead(left: set<string>, dir: bool, it: Option<string>) {
    (dir ==> NotYet(it, BACKUP)) && forall x :: x in left ==> NotYet(it, BACKUP_DIR + x)
  }

  lemma StepKeeps(keys: set<string>, left: set<string>, dir: bool, k: string)
    requires k in keys && StillAhead(left, dir, Some(k))
    requires (dir ==> BACKUP in keys) && forall x :: x in left ==> BACKUP_DIR + x in keys
    ensures StillAhead(if BACKUP_DIR <= k then left - {k[8..]} else left, dir && k != BACKUP, Next(keys, k))
  {
    WalkSteps(keys, k);
    var next := Next(keys, k);
    forall z | z in keys && z != k && NotYet(Some(k), z) ensures NotYet(next, z) {
      assert z in Ahead(keys, Some(k)) && z in Ahead(keys, next);
    }
    forall x | x in left && BACKUP_DIR + x == k ensures BACKUP_DIR <= k && k[8..] == x { DirAfter(x); }
  }

  lemma MidwayKeys(stock: Entries, patched: Entries, left: set<string>, dir: bool)
    requires left <= BackedNames(stock, patched)
    ensures dir ==> BACKUP in Midway(stock, patched, left, dir)
    ensures forall x :: x in left ==> BACKUP_DIR + x in Midway(stock, patched, left, dir)
  {
  }

  lemma MidwayDir(stock: Entries, patched: Entries, left: set<string>)
    requires left <= BackedNames(stock, patched) && AllOrdinary(stock)
    ensures Midway(stock, patched, left, true) - {BACKUP} == Midway(stock, patched, left, false)
  {
    var (a, b) := (Midway(stock, patched, left, true) - {BACKUP}, Midway(stock, patched, left, false));
    hide Midway, Ordinary, BackedNames;
    forall z ensures z in a <==> z in b { MidwayDirAt(stock, patched, left, z); }
    forall z | z in a ensures a[z] == b[z] { MidwayDirAt(stock, patched, left, z); }
  }

  lemma MidwayDirAt(stock: Entries, patched: Entries, left: set<string>, z: string)
    requires left <= BackedNames(stock, patched) && AllOrdinary(stock)
    ensures var (a, b) := (Midway(stock, patched, left, true) - {BACKUP}, Midway(stock, patched, left, false));
            (z in a <==> z in b) && (z in a ==> a[z] == b[z])
  {
    hide Midway, Ordinary, BackedNames;
    MidwayHas(stock, patched, left, true, z);
    MidwayHas(stock, patched, left, false, z);
    if BACKUP_DIR <= z { assert z == BACKUP_DIR + z[8..]; DirAfter(z[8..]); }
    if z in Midway(stock, patched, left, false) {
      MidwayAt(stock, patched, left, true, z);
      MidwayAt(stock, patched, left, false, z);
    }
  }

  /** One turn of the walk. */
  lemma RestoreUnfolds(m: Entries, k: string)
    requires k in m
    ensures var next := Next(m.Keys, k);
            && (next.Some? ==> next.value in m && next.value != k)
            && (k == BACKUP ==> RestoreFrom(m, Some(k)) == RestoreFrom(m - {k}, next))
            && (BACKUP_DIR <= k && k[8..] != ".magisk" ==>
                RestoreFrom(m, Some(k)) == if next == Some(k[8..]) then None
                    else RestoreFrom(Moved(m, k, k[8..]), next))
            && (!(BACKUP <= k) && !Known(k) ==> RestoreFrom(m, Some(k)) == RestoreFrom(m, next))
  {
    WalkSteps(m.Keys, k);
    LessTotal(k, k);
    assert BACKUP <= BACKUP_DIR;
  }

  lemma AtDirectory(stock: Entries, patched: Entries, left: set<string>, dir: bool)
    requires left <= BackedNames(stock, patched) && AllOrdinary(stock) && BACKUP in Midway(stock, patched, left, dir)
    ensures var m := Midway(stock, patched, left, dir);
            dir && RestoreFrom(m, Some(BACKUP))
                == RestoreFrom(Midway(stock, patched, left, false), Next(m.Keys, BACKUP))
  {
    hide *;
    MidwayHas(stock, patched, left, dir, BACKUP);
    BackupNames();
    MidwayDir(stock, patched, left);
    RestoreUnfolds(Midway(stock, patched, left, dir), BACKUP);
  }

  lemma BackupNames()
    ensures |BACKUP| == 7 && |BACKUP_DIR| == 8
  {
  }

  lemma AtBackup(stock: Entries, patched: Entries, left: set<string>, dir: bool, k: string)
    requires left <= BackedNames(stock, patched) && AllOrdinary(stock) && k in Midway(stock, patched, left, dir)
    requires StillAhead(left, dir, Some(k)) && BACKUP_DIR <= k
    ensures |k| >= 8 && k[8..] in left && !dir && k == BACKUP_DIR + k[8..]
            && (forall y :: y in left && y != k[8..] ==> Less(k[8..], y))
    ensures AfterBackup(stock, patched, left, k[8..])
  {
    hide *;
    BackupNames();
    MidwayHas(stock, patched, left, dir, k);
    var x := k[8..];
    assert k == BACKUP_DIR + x;
    AheadOf(left, dir, x);
    BackupMoves(stock, patched, left, x);
  }

  /** The turn of the walk at ".backup/x". */
  ghost predicate AfterBackup(stock: Entries, patched: Entries, left: set<string>, x: string)
    requires left <= BackedNames(stock, patched)
  {
    var (m, m') := (Midway(stock, patched, left, false), Midway(stock, patched, left - {x}, false));
    var next := Next(m.Keys, BACKUP_DIR + x);
    && BACKUP_DIR + x in m && (next.Some? ==> next.value in m')
    && RestoreFrom(m, Some(BACKUP_DIR + x)) == if next == Some(x) then None else RestoreFrom(m', next)
  }

  lemma BackupMoves(stock: Entries, patched: Entries, left: set<string>, x: string)
    requires left <= BackedNames(stock, patched) && AllOrdinary(stock) && x in left
    ensures AfterBackup(stock, patched, left, x)
  {
    var m := Midway(stock, patched, left, false);
    hide Midway, BackedNames, RestoreFrom, Ordinary, AllOrdinary;
    LeftOrdinary(stock, patched, left, x);
    MidwayMoves(stock, patched, left, x);
    DirAfter(x);
    NextStays(stock, patched, left, x, Next(m.Keys, BACKUP_DIR + x));
    RestoreUnfolds(m, BACKUP_DIR + x);
  }

  lemma LeftOrdinary(stock: Entries, patched: Entries, left: set<string>, x: string)
    requires left <= BackedNames(stock, patched) && AllOrdinary(stock) && x in left
    ensures x in stock && x != ".magisk"
  {
    assert x in stock && Ordinary(x);
  }

  lemma AheadOf(left: set<string>, dir: bool, x: string)
    requires StillAhead(left, dir, Some(BACKUP_DIR + x)) && x in left
    ensures !dir && forall y :: y in left && y != x ==> Less(x, y)
  {
    DirAfter(x);
    forall y | y in left && y != x ensures Less(x, y) {
      LessPrefix(BACKUP_DIR, x, y);
      KeepsApart();
    }
  }

  lemma AtStock(stock: Entries, patched: Entries, left: set<string>, dir: bool, k: string)
    requires left <= BackedNames(stock, patched) && AllOrdinary(stock) && k in Midway(stock, patched, left, dir)
    requires k != BACKUP && !(BACKUP_DIR <= k)
    ensures var m := Midway(stock, patched, left, dir);
            k in stock && RestoreFrom(m, Some(k)) == RestoreFrom(m, Next(m.Keys, k))
  {
    MidwayHas(stock, patched, left, dir, k);
    assert Ordinary(k);
    hide Midway, RestoreFrom, BackedNames, Known;
    RestoreUnfolds(Midway(stock, patched, left, dir), k);
  }

  /** The walk of `restore` over what `backup` left: everything comes back, unless the last backup is adjacent. */
  lemma {:induction false} WalkRestores(stock: Entries, patched: Entries, left: set<string>, dir: bool,
      it: Option<string>)
    requires left <= BackedNames(stock, patched) && AllOrdinary(stock) && StillAhead(left, dir, it)
    requires it.Some? ==> it.value in Midway(stock, patched, left, dir)
    ensures RestoreFrom(Midway(stock, patched, left, dir), it) ==
            if Dangles(stock, patched, left) then None else Some(Midway(stock, patched, {}, false))
    decreases left, dir, Ahead(Midway(stock, patched, left, dir).Keys, it)
  {
    var m := Midway(stock, patched, left, dir);
    if it.None? {
      WalkOver(left, dir);
      assert RestoreFrom(m, None) == Some(m);
    } else {
      var k := it.value;
      var next := Next(m.Keys, k);
      MidwayKeys(stock, patched, left, dir);
      StepKeeps(m.Keys, left, dir, k);
      RestoreUnfolds(m, k);
      AheadShrinks(m.Keys, k);
      hide Midway, RestoreFrom, BackedNames, AllOrdinary, StillAhead, Dangles, Adjacent, Ahead;
      if BACKUP_DIR <= k {
        var x := k[8..];
        AtBackup(stock, patched, left, dir, k);
        NextIsSelf(stock, patched, left, x);
        DanglesLater(stock, patched, left, x);
        if next != Some(x) {
          WalkRestores(stock, patched, left - {x}, false, next);
        }
      } else if k == BACKUP {
        AtDirectory(stock, patched, left, dir);
        MidwayDir(stock, patched, left);
        WalkRestores(stock, patched, left, false, next);
      } else {
        AtStock(stock, patched, left, dir, k);
        WalkRestores(stock, patched, left, dir, next);
      }
    }
  }

  lemma WalkOver(left: set<string>, dir: bool)
    requires StillAhead(left, dir, None)
    ensures left == {} && !dir && forall stock, patched :: !Dangles(stock, patched, left)
  {
    forall x ensures x !in left {
      var passed := !NotYet(None, BACKUP_DIR + x);
    }
  }

  lemma NextStays(stock: Entries, patched: Entries, left: set<string>, x: string, next: Option<string>)
    requires left <= BackedNames(stock, patched) && AllOrdinary(stock) && x in left
    requires next == Next(Midway(stock, patched, left, false).Keys, BACKUP_DIR + x)
    ensures next.Some? ==> next.value in Midway(stock, patched, left - {x}, false)
  {
    hide Midway, BackedNames, AllOrdinary;
    MidwayMoves(stock, patched, left, x);
    LessTotal(BACKUP_DIR + x, BACKUP_DIR + x);
  }

  ghost function NewAhead(stock: Entries, patched: Entries, it: Option<string>): set<string> {
    set k | k in Ahead(patched.Keys, it) && k !in stock
  }

  lemma RemovedFirst(m: Entries, n: string, rest: string)
    requires '\0' !in n && n != RMLIST
    ensures Removed(m, n + ['\0'] + rest) == Removed(m - {n}, rest)
  {
    CStringEnds(n, rest);
    assert (n + ['\0'] + rest)[|n| + 1..] == rest;
  }

  /** The list that `backup` writes makes `restore` remove exactly the names that patching added. */
  lemma {:induction false} NewNamesRemoved(stock: Entries, patched: Entries, it: Option<string>, m: Entries)
    requires CNames(patched) && RMLIST !in patched && (it.Some? ==> it.value in patched)
    ensures Removed(m, NewNames(stock, patched, it)) == Some(m - NewAhead(stock, patched, it))
    ensures NewNames(stock, patched, it) == [] <==> NewAhead(stock, patched, it) == {}
    decreases Ahead(patched.Keys, it)
  {
    if it.None? {
      WalkEnds(patched.Keys);
      assert NewAhead(stock, patched, it) == {} && m - {} == m;
    } else {
      var k := it.value;
      var next := Next(patched.Keys, k);
      WalkSteps(patched.Keys, k);
      NewNamesNext(stock, patched, k);
      hide Removed;
      if k in stock {
        NewNamesRemoved(stock, patched, next, m);
        assert NewAhead(stock, patched, it) == NewAhead(stock, patched, next);
        assert [] + NewNames(stock, patched, next) == NewNames(stock, patched, next);
      } else {
        NewNamesRemoved(stock, patched, next, m - {k});
        assert NewAhead(stock, patched, it) == NewAhead(stock, patched, next) + {k};
        assert m - {k} - NewAhead(stock, patched, next) == m - NewAhead(stock, patched, it);
        RemovedFirst(m, k, NewNames(stock, patched, next));
      }
    }
  }

  lemma WithoutBackups(m: Entries)
    ensures var n := Without(m, BACKUP, true);
            BACKUP !in n && (forall k :: k in n ==> !(BACKUP_DIR <= k) && k in m && n[k] == m[k])
                && (AllOrdinary(m) ==> n == m)
  {
    assert BACKUP + "/" == BACKUP_DIR && BACKUP <= BACKUP_DIR;
  }

  /** The archive after the listed names are gone: nothing of the patched one is left but what the stock one has too. */
  lemma ListGone(stock: Entries, patched: Entries, all: Entries, n: Entries)
    requires AllOrdinary(stock) && NoBackups(patched)
    requires all == map[BACKUP := BACKUP_ENTRY] + Kept(stock, patched, stock.Keys)
    requires forall k :: k in n <==> (k in all || k in patched) && !(k in patched && k !in stock)
    requires forall k :: k in n ==> n[k] == if k in patched then patched[k] else all[k]
    ensures n == Midway(stock, patched, BackedNames(stock, patched), true)
  {
    hide *;
    var m := Midway(stock, patched, BackedNames(stock, patched), true);
    forall z ensures (z in n <==> z in m) && (z in n ==> n[z] == m[z]) {
      ListGoneAt(stock, patched, all, n, z);
    }
    assert n.Keys == m.Keys;
  }

  lemma ListGoneAt(stock: Entries, patched: Entries, all: Entries, n: Entries, z: string)
    requires AllOrdinary(stock) && NoBackups(patched)
    requires all == map[BACKUP := BACKUP_ENTRY] + Kept(stock, patched, stock.Keys)
    requires z in n <==> (z in all || z in patched) && !(z in patched && z !in stock)
    requires z in n ==> n[z] == if z in patched then patched[z] else all[z]
    ensures var m := Midway(stock, patched, BackedNames(stock, patched), true);
            (z in n <==> z in m) && (z in n ==> n[z] == m[z])
  {
    hide *;
    var left := BackedNames(stock, patched);
    MidwayHas(stock, patched, left, true, z);
    MidwayAt(stock, patched, left, true, z);
    KeptHas(stock, patched, z);
    KeptHas(stock, patched, BACKUP);
    IsBacked(stock, patched, z);
    NoneThere(patched, z);
    BackupNames();
  }

  lemma IsBacked(stock: Entries, patched: Entries, z: string)
    ensures z in BackedNames(stock, patched) <==> z in stock && Backed(stock, patched, z)
    ensures z in stock && z !in patched ==> Backed(stock, patched, z)
  {
  }

  lemma NoneThere(patched: Entries, z: string)
    requires NoBackups(patched)
    ensures z in patched ==> z != BACKUP && !(BACKUP_DIR <= z)
  {
  }

  ghost predicate NoBackups(m: Entries) {
    BACKUP !in m && forall k :: k in m ==> !(BACKUP_DIR <= k)
  }

  lemma KeptHas(stock: Entries, patched: Entries, z: string)
    ensures var kept := Kept(stock, patched, stock.Keys);
            && (z in kept <==> BACKUP_DIR <= z && z[8..] in BackedNames(stock, patched))
            && (z in kept ==> kept[z] == stock[z[8..]]) && BACKUP !in kept
  {
    KeepsApart();
    if BACKUP_DIR <= z { assert z == BACKUP_DIR + z[8..]; }
  }

  ghost predicate SameContents(stock: Entries, m: Entries) {
    m.Keys == stock.Keys && forall k :: k in stock ==> m[k].data == stock[k].data
  }

  lemma MoreThanOne(m: Entries, a: string, b: string)
    requires a in m && b in m && a != b
    ensures |m| > 1
  {
    SubsetOf({a, b}, m.Keys);
  }

  lemma SubsetOf(a: set<string>, b: set<string>)
    requires a <= b
    ensures |a| <= |b|
  {
    assert b == a + (b - a);
  }

  /** What `backup` returns: the patched archive itself where nothing changed, else everything `restore` needs. */
  lemma BackedUpIs(patched0: Entries, stock: Entries)
    requires AllOrdinary(stock)
    ensures var patched := Without(patched0, BACKUP, true);
            var added := NewNames(stock, patched, First(patched.Keys));
            var kept := map[BACKUP := BACKUP_ENTRY] + Kept(stock, patched, stock.Keys);
            BackedUp(patched0, stock) ==
              if added == [] && BackedNames(stock, patched) == {} then patched
              else (if added == [] then kept else kept[RMLIST := ListEntry(added)]) + patched
  {
    hide Kept, Without, Ordinary, AllOrdinary, BackedUp, Backed, BackedNames;
    var patched := Without(patched0, BACKUP, true);
    WithoutBackups(stock);
    var added := NewNames(stock, patched, First(patched.Keys));
    var kept := map[BACKUP := BACKUP_ENTRY] + Kept(stock, patched, stock.Keys);
    var all := if added == [] then kept else kept[RMLIST := ListEntry(added)];
    BackedUpBy(patched0, stock, patched, added, all);
    SizeOfBackup(stock, patched, added, all);
  }

  lemma BackedUpBy(patched0: Entries, stock: Entries, patched: Entries, added: string, all: Entries)
    requires patched == Without(patched0, BACKUP, true) && Without(stock, BACKUP, true) == stock
    requires added == NewNames(stock, patched, First(patched.Keys))
    requires var kept := map[BACKUP := BACKUP_ENTRY] + Kept(stock, patched, stock.Keys);
             all == if added == [] then kept else kept[RMLIST := ListEntry(added)]
    ensures BackedUp(patched0, stock) == if |all| > 1 then all + patched else patched
  {
    hide NewNames, Without, Kept;
  }

  lemma SizeOfBackup(stock: Entries, patched: Entries, added: string, all: Entries)
    requires var kept := map[BACKUP := BACKUP_ENTRY] + Kept(stock, patched, stock.Keys);
             all == if added == [] then kept else kept[RMLIST := ListEntry(added)]
    ensures |all| > 1 <==> !(added == [] && BackedNames(stock, patched) == {})
  {
    if added != [] {
      MoreThanOne(all, BACKUP, RMLIST);
    } else if BackedNames(stock, patched) != {} {
      var k :| k in BackedNames(stock, patched);
      DirAfter(k);
      KeptHas(stock, patched, BACKUP_DIR + k);
      hide Kept, BackedNames;
      MoreThanOne(all, BACKUP, BACKUP_DIR + k);
    } else {
      forall z ensures z !in Kept(stock, patched, stock.Keys) { KeptHas(stock, patched, z); }
      hide Kept;
      assert all.Keys == {BACKUP};
    }
  }

  lemma MidwayDone(stock: Entries, patched: Entries, k: string)
    requires AllOrdinary(stock)
    ensures var m := Midway(stock, patched, {}, false);
            (k in m <==> k in stock) && (k in m ==> m[k] == if Backed(stock, patched, k) then stock[k] else patched[k])
  {
    MidwayHas(stock, patched, {}, false, k);
    MidwayAt(stock, patched, {}, false, k);
  }

  lemma Unchanged(stock: Entries, patched: Entries)
    requires AllOrdinary(stock) && NoBackups(patched) && BackedNames(stock, patched) == {} && patched.Keys <= stock.Keys
    ensures Restored(patched) == Some(Midway(stock, patched, {}, false)) && !Dangles(stock, patched, {})
  {
    var m := Midway(stock, patched, {}, false);
    hide Midway, RestoreFrom, Ordinary, AllOrdinary, Removed;
    forall k ensures (k in m <==> k in patched) && (k in m ==> m[k] == patched[k]) {
      MidwayDone(stock, patched, k);
      if k in stock { NotBacked(stock, patched, k); }
    }
    assert patched.Keys == m.Keys;
    assert patched == m;
    assert forall x :: !Greatest({}, x);
    assert BACKUP_DIR <= RMLIST;
    assert patched - {RMLIST} == patched;
    WalkRestores(stock, patched, {}, false, First(patched.Keys));
  }

  lemma NotBacked(stock: Entries, patched: Entries, k: string)
    requires BackedNames(stock, patched) == {} && k in stock
    ensures !Backed(stock, patched, k) && k in patched
  {
    assert k !in BackedNames(stock, patched);
  }

  /** The list is worked off, and what is left is the patched archive with the backups in it. */
  lemma Changed(stock: Entries, patched: Entries, b: Entries, added: string)
    requires AllOrdinary(stock) && CNames(patched) && NoBackups(patched)
             && added == NewNames(stock, patched, First(patched.Keys))
    requires var kept := map[BACKUP := BACKUP_ENTRY] + Kept(stock, patched, stock.Keys);
             b == (if added == [] then kept else kept[RMLIST := ListEntry(added)]) + patched
    ensures var m := Midway(stock, patched, BackedNames(stock, patched), true);
            Restored(b) == RestoreFrom(m, First(m.Keys))
  {
    var kept := map[BACKUP := BACKUP_ENTRY] + Kept(stock, patched, stock.Keys);
    NoListYet(stock, patched);
    NewNamesRemoved(stock, patched, First(patched.Keys), b);
    WalkStarts(patched.Keys);
    var gone := NewAhead(stock, patched, First(patched.Keys));
    assert forall k :: k in gone <==> k in patched && k !in stock;
    hide Midway, RestoreFrom, Ordinary, AllOrdinary, Removed, Kept, NewNames, NewAhead, NoBackups;
    var n := b - gone - {RMLIST};
    ListGone(stock, patched, kept, n);
    if added == [] {
      assert gone == {} && b - {RMLIST} == n;
    }
  }

  lemma NoListYet(stock: Entries, patched: Entries)
    requires AllOrdinary(stock) && NoBackups(patched)
    ensures RMLIST !in patched && RMLIST !in map[BACKUP := BACKUP_ENTRY] + Kept(stock, patched, stock.Keys)
  {
    assert BACKUP_DIR <= RMLIST && RMLIST[8..] == ".rmlist" && !Ordinary(".rmlist");
    KeptHas(stock, patched, RMLIST);
    hide Kept;
  }

  /** What the walk of `restore` starts from, and how it ends. */
  lemma RestoreStarts(patched0: Entries, stock: Entries)
    requires AllOrdinary(stock) && CNames(patched0)
    ensures var patched := Without(patched0, BACKUP, true);
            Restored(BackedUp(patched0, stock)) ==
              if Dangles(stock, patched, BackedNames(stock, patched)) then None
                  else Some(Midway(stock, patched, {}, false))
  {
    var patched := Without(patched0, BACKUP, true);
    WithoutBackups(patched0);
    BackedUpIs(patched0, stock);
    WalkStarts(patched.Keys);
    NewNamesRemoved(stock, patched, First(patched.Keys), patched);
    var left := BackedNames(stock, patched);
    var added := NewNames(stock, patched, First(patched.Keys));
    hide Without, Kept, NewNames, Restored, Removed, RestoreFrom, Midway, Ordinary, AllOrdinary, BackedUp, Dangles;
    if added == [] && left == {} {
      forall k | k in patched ensures k in stock { assert k !in NewAhead(stock, patched, First(patched.Keys)); }
      Unchanged(stock, patched);
    } else {
      Changed(stock, patched, BackedUp(patched0, stock), added);
      AllAhead(stock, patched, left);
      WalkRestores(stock, patched, left, true, First(Midway(stock, patched, left, true).Keys));
    }
  }

  lemma AllAhead(stock: Entries, patched: Entries, left: set<string>)
    requires left == BackedNames(stock, patched)
    ensures StillAhead(left, true, First(Midway(stock, patched, left, true).Keys))
  {
    var keys := Midway(stock, patched, left, true).Keys;
    MidwayKeys(stock, patched, left, true);
    WalkStarts(keys);
    hide Midway;
    forall x | x in left ensures NotYet(First(keys), BACKUP_DIR + x) { assert BACKUP_DIR
        + x in Ahead(keys, First(keys)); }
    assert BACKUP in Ahead(keys, First(keys));
  }

  /** The archive at the end of the walk. */
  lemma StockBack(stock: Entries, patched: Entries)
    requires AllOrdinary(stock)
    ensures var m := Midway(stock, patched, {}, false);
            && SameContents(stock, m) && m.Keys == stock.Keys
            && forall k :: k in stock ==> m[k] == if Backed(stock, patched, k) then stock[k] else patched[k]
  {
    var m := Midway(stock, patched, {}, false);
    hide Midway;
    forall k ensures (k in m <==> k in stock)
        && (k in m ==> m[k] == if Backed(stock, patched, k) then stock[k] else patched[k]) {
      MidwayDone(stock, patched, k);
    }
    assert m.Keys == stock.Keys;
  }

  /**
   * Backup, then restore. The stock names, and under each the stock contents, come back exactly when the greatest name
   * that was backed up is not adjacent to its backup. Entries that were backed up come back whole; the others are those
   * of the patched archive, their modes and owners included.
   */
  lemma BackupRestore(patched0: Entries, stock: Entries)
    requires AllOrdinary(stock) && CNames(patched0) && "ramdisk.cpio.xz" !in patched0
    ensures "ramdisk.cpio.xz" !in BackedUp(patched0, stock)
    ensures var patched := Without(patched0, BACKUP, true);
            var r := Restored(BackedUp(patched0, stock));
            && (r.Some? && SameContents(stock, r.value) <==> !Dangles(stock, patched, BackedNames(stock, patched)))
            && (r.Some? ==> r.value.Keys == stock.Keys && forall k :: k in stock ==>
                  r.value[k] == if Backed(stock, patched, k) then stock[k] else patched[k])
  {
    var patched := Without(patched0, BACKUP, true);
    NoArchive(patched0, stock);
    RestoreStarts(patched0, stock);
    StockBack(stock, patched);
    hide Midway, Restored, BackedUp, Without, Dangles;
  }

  lemma NoArchive(patched0: Entries, stock: Entries)
    requires AllOrdinary(stock) && "ramdisk.cpio.xz" !in patched0
    ensures "ramdisk.cpio.xz" !in BackedUp(patched0, stock)
  {
    BackedUpIs(patched0, stock);
    WithoutBackups(patched0);
    var patched := Without(patched0, BACKUP, true);
    KeptHas(stock, patched, "ramdisk.cpio.xz");
    assert !(BACKUP_DIR <= "ramdisk.cpio.xz") by { assert "ramdisk.cpio.xz"[0] != BACKUP_DIR[0]; }
    hide BackedUp, Kept, NewNames, Without;
  }

  /** One file, changed by patching: its backup is right in front of it, and restoring goes on from an erased entry. */
  lemma OneFileDangles(before: Entry, after: Entry)
    requires before.data != after.data
    ensures Restored(BackedUp(map["init" := after], map["init" := before])) == None
  {
    var (stock, patched0) := (map["init" := before], map["init" := after]);
    InitOrdinary();
    RestoreStarts(patched0, stock);
    var patched := Without(patched0, BACKUP, true);
    assert "init" in patched && patched["init"] == after;
    assert BackedNames(stock, patched) == {"init"};
    hide Restored, BackedUp, Without, Ordinary;
    assert Greatest({"init"}, "init");
    assert Adjacent(stock, patched, "init");
  }

  lemma InitOrdinary()
    ensures Ordinary("init") && Less(BACKUP_DIR + "init", "init") && !Less("init", "init")
    ensures !Removes("init", BACKUP, true)
  {
    assert "init"[0] == 'i' && BACKUP[0] == '.' && "magisk"[0] == 'm' && (BACKUP + "/")[0] == '.';
    assert (BACKUP_DIR + "init")[0] == '.';
    LessTotal("init", "init");
  }

  /** Backed up and restored, by the loops. */
  method BackupAndRestore(patched0: Entries, stock: Entries) returns (r: Option<Entries>)
    requires AllOrdinary(stock) && CNames(patched0) && "ramdisk.cpio.xz" !in patched0
    ensures r.Some? && SameContents(stock, r.value) <==>
            !Dangles(stock, Without(patched0, BACKUP, true), BackedNames(stock, Without(patched0, BACKUP, true)))
  {
    hide *;
    BackupRestore(patched0, stock);
    var b := Backup(patched0, stock);
    r := Restore(b);
  }
}
