/**
 * The ramdisk of a patched image as the installer leaves it: what `backup` made, and the two entries that are put into
 * it afterwards, the directory ".backup" and the configuration ".backup/.magisk".
 */
module MarkedRamdisk {
  import opened Base
  import opened Names
  import opened Cpio
  import opened Ramdisk

  const MARK := ".backup/.magisk"

  /** The installer's own entries, as far as they are still there. */
  ghost predicate Own(own: Entries) {
    own.Keys <= {BACKUP, MARK}
  }

  ghost function With(own: Entries, m: Entries): Entries {
    m + own
  }

  ghost predicate OwnAhead(own: Entries, it: Option<string>) {
    forall z :: z in own ==> NotYet(it, z)
  }

  lemma MarkNames()
    ensures MARK == BACKUP_DIR + ".magisk" && MARK[8..] == ".magisk" && |MARK| == 15 && |BACKUP| == 7
    ensures BACKUP <= MARK && BACKUP_DIR <= MARK && MARK != BACKUP && !(BACKUP_DIR <= BACKUP)
  {
  }

  /** The iterator is left on an erased entry, the configuration not standing in between. */
  ghost predicate MarkedAdjacent(stock: Entries, patched: Entries, marked: bool, x: string) {
    Adjacent(stock, patched, x) && !(marked && Less(x, ".magisk") && Less(MARK, x))
  }

  ghost predicate MarkedDangles(stock: Entries, patched: Entries, left: set<string>, marked: bool) {
    exists x :: Greatest(left, x) && MarkedAdjacent(stock, patched, marked, x)
  }

  lemma NotMarked(stock: Entries, patched: Entries, left: set<string>)
    ensures MarkedDangles(stock, patched, left, false) <==> Dangles(stock, patched, left)
  {
    hide Adjacent, Greatest;
    if x :| Greatest(left, x) && Adjacent(stock, patched, x) { assert MarkedAdjacent(stock, patched, false, x); }
  }

  /** Once the walk has passed the configuration, that makes no difference any more. */
  lemma MarkPassed(stock: Entries, patched: Entries, left: set<string>)
    requires StillAhead(left, false, Some(MARK))
    ensures MarkedDangles(stock, patched, left, true) <==> MarkedDangles(stock, patched, left, false)
  {
    hide Adjacent;
    forall x | x in left ensures !Less(x, ".magisk") {
      MarkNames();
      LessPrefix(BACKUP_DIR, x, ".magisk");
      LessTotal(BACKUP_DIR + x, MARK);
    }
    forall x | Greatest(left, x)
      ensures MarkedAdjacent(stock, patched, true, x) <==> MarkedAdjacent(stock, patched, false, x) { }
  }

  lemma MarkedLater(stock: Entries, patched: Entries, left: set<string>, marked: bool, x: string)
    requires x in left && forall y :: y in left && y != x ==> Less(x, y)
    ensures left == {x} ==>
            && (MarkedDangles(stock, patched, left, marked) <==> MarkedAdjacent(stock, patched, marked, x))
            && !MarkedDangles(stock, patched, left - {x}, marked)
    ensures left != {x} ==>
            (MarkedDangles(stock, patched, left, marked) <==> MarkedDangles(stock, patched, left - {x}, marked))
  {
    hide MarkedAdjacent;
    if left == {x} {
      assert Greatest(left, x);
    } else {
      TwoIn(left, x);
      forall z ensures Greatest(left, z) <==> Greatest(left - {x}, z) {
        var y :| y in left && y != x;
        if Greatest(left, z) && z == x { LessTotal(x, y); }
      }
    }
  }

  /** What further keys do to the next one. */
  lemma NextWith(keys: set<string>, more: set<string>, k: string, x: string)
    requires x !in more
    ensures Next(keys + more, k) == Some(x) <==>
            Next(keys, k) == Some(x) && forall z :: z in more ==> !(Less(k, z) && Less(z, x))
  {
    var (a, b) := (Next(keys + more, k), Next(keys, k));
    if a == Some(x) {
      LessTotal(b.value, x);
      forall z | z in more && Less(k, z) ensures !Less(z, x) { LessTotal(z, x); }
    }
    if b == Some(x) && forall z :: z in more ==> !(Less(k, z) && Less(z, x)) {
      LessTotal(a.value, x);
    }
  }

  /** What stands under a name while the archive is being restored. */
  lemma WithHas(stock: Entries, patched: Entries, left: set<string>, own: Entries, k: string)
    requires left <= BackedNames(stock, patched) && AllOrdinary(stock) && Own(own)
    ensures var (mid, m) := (Midway(stock, patched, left, false), With(own, Midway(stock, patched, left, false)));
            && (k in m <==> k in mid || k in own) && (k in own ==> k !in mid && m[k] == own[k])
            && (k in mid ==> m[k] == mid[k])
            && (k in m && k !in own ==> (BACKUP_DIR <= k && k[8..] in left) || (k in stock && !(BACKUP_DIR <= k)))
            && (k in own ==> k == BACKUP || k == MARK)
  {
    hide Midway, BackedNames, Ordinary;
    MarkNames();
    MidwayHas(stock, patched, left, false, k);
    if k in own && k == MARK && ".magisk" in left { LeftOrdinary(stock, patched, left, ".magisk"); }
  }

  lemma ErasesOwn(own: Entries, mid: Entries, k: string)
    requires k in own && k !in mid && (k == BACKUP || k == MARK)
    ensures k in With(own, mid)
    ensures var next := Next(With(own, mid).Keys, k); next.Some? ==> next.value in With(own - {k}, mid)
    ensures var m := With(own, mid);
            RestoreFrom(m, Some(k)) == RestoreFrom(With(own - {k}, mid), Next(m.Keys, k))
  {
    MarkNames();
    var m := With(own, mid);
    assert m - {k} == With(own - {k}, mid);
    WalkSteps(m.Keys, k);
    LessTotal(k, k);
  }

  lemma StepsOver(m: Entries, k: string, own: Entries)
    requires k in m && OwnAhead(own, Some(k)) && own.Keys <= m.Keys
    ensures OwnAhead(own - {k}, Next(m.Keys, k))
    ensures Next(m.Keys, k).Some? ==> Next(m.Keys, k).value in m
    ensures Ahead(m.Keys, Next(m.Keys, k)) == Ahead(m.Keys, Some(k)) - {k} && k in Ahead(m.Keys, Some(k))
  {
    WalkSteps(m.Keys, k);
    forall z | z in own && z != k ensures NotYet(Next(m.Keys, k), z) {
      assert z in Ahead(m.Keys, Some(k)) && z in Ahead(m.Keys, Next(m.Keys, k));
    }
  }

  /** The turn of the walk at ".backup/x". */
  lemma AtMarkedBackup(stock: Entries, patched: Entries, left: set<string>, own: Entries, x: string)
    requires left <= BackedNames(stock, patched) && AllOrdinary(stock) && Own(own) && x in left
    requires StillAhead(left, false, Some(BACKUP_DIR + x)) && OwnAhead(own, Some(BACKUP_DIR + x))
    ensures var (k, m) := (BACKUP_DIR + x, With(own, Midway(stock, patched, left, false)));
            var (next, m') := (Next(m.Keys, k), With(own, Midway(stock, patched, left - {x}, false)));
            && k in m && (forall y :: y in left && y != x ==> Less(x, y))
            && (next.Some? ==> next.value in m')
            && RestoreFrom(m, Some(k)) == (if next == Some(x) then None else RestoreFrom(m', next))
            && (next == Some(x) <==> left == {x} && MarkedAdjacent(stock, patched, MARK in own, x))
  {
    hide *;
    var (k, mid) := (BACKUP_DIR + x, Midway(stock, patched, left, false));
    var m := With(own, mid);
    BackupNames();
    DirAfter(x);
    LeftOrdinary(stock, patched, left, x);
    AheadOf(left, false, x);
    MidwayMoves(stock, patched, left, x);
    WithHas(stock, patched, left, own, k);
    LeftApart(stock, patched, left, own, x);
    RestoreUnfolds(m, k);
    MovedWith(own, mid, k, x);
    NextIsSelf(stock, patched, left, x);
    NextMarked(stock, patched, own, mid, x);
    KeysMoved(m, k, x, Next(m.Keys, k));
    MarkedIs(stock, patched, MARK in own, x);
    MarkNames();
  }

  lemma MarkedIs(stock: Entries, patched: Entries, marked: bool, x: string)
    ensures MarkedAdjacent(stock, patched, marked, x) <==>
            Adjacent(stock, patched, x) && !(marked && Less(x, ".magisk") && Less(MARK, x))
  {
    hide Adjacent;
  }

  lemma LeftApart(stock: Entries, patched: Entries, left: set<string>, own: Entries, x: string)
    requires left <= BackedNames(stock, patched) && AllOrdinary(stock) && Own(own) && x in left
    ensures x !in own && BACKUP_DIR + x !in own && BACKUP_DIR + x != x && x != MARK[8..]
  {
    MarkNames();
    DirAfter(x);
    LeftOrdinary(stock, patched, left, x);
    assert Ordinary(x);
  }

  lemma KeysMoved(m: Entries, k: string, x: string, next: Option<string>)
    requires k in m && x != k && next == Next(m.Keys, k)
    ensures next.Some? ==> next.value in Moved(m, k, x)
  {
    LessTotal(k, k);
  }

  lemma MovedWith(own: Entries, mid: Entries, k: string, x: string)
    requires k in mid && k !in own && x !in own && x != k
    ensures k in With(own, mid) && Moved(With(own, mid), k, x) == With(own, Moved(mid, k, x))
  {
  }

  lemma NextMarked(stock: Entries, patched: Entries, own: Entries, mid: Entries, x: string)
    requires Own(own) && x !in own && OwnAhead(own, Some(BACKUP_DIR + x)) && BACKUP_DIR + x !in own
    ensures var k := BACKUP_DIR + x;
            Next(With(own, mid).Keys, k) == Some(x) <==>
            Next(mid.Keys, k) == Some(x) && !(MARK in own && Less(x, ".magisk") && Less(MARK, x))
  {
    var k := BACKUP_DIR + x;
    MarkNames();
    DirAfter(x);
    LessPrefix(BACKUP_DIR, x, ".magisk");
    NextWith(mid.Keys, own.Keys, k, x);
    assert With(own, mid).Keys == mid.Keys + own.Keys;
    assert BACKUP in own ==> !Less(k, BACKUP);
  }

  lemma AtMarkedStock(stock: Entries, patched: Entries, left: set<string>, own: Entries, k: string)
    requires left <= BackedNames(stock, patched) && AllOrdinary(stock) && k in stock
    requires k in With(own, Midway(stock, patched, left, false))
    ensures var m := With(own, Midway(stock, patched, left, false));
            RestoreFrom(m, Some(k)) == RestoreFrom(m, Next(m.Keys, k))
  {
    assert Ordinary(k);
    hide Midway, RestoreFrom, BackedNames, Known, With;
    RestoreUnfolds(With(own, Midway(stock, patched, left, false)), k);
  }

  /**
   * The walk of `restore` over what the installer left: everything comes back, and its own entries are gone, unless the
   * last backup is adjacent with nothing in between.
   */
  lemma {:induction false} WalkMarked(stock: Entries, patched: Entries, left: set<string>, own: Entries,
      it: Option<string>)
    requires left <= BackedNames(stock, patched) && AllOrdinary(stock) && Own(own)
    requires StillAhead(left, false, it) && OwnAhead(own, it)
    requires it.Some? ==> it.value in With(own, Midway(stock, patched, left, false))
    ensures RestoreFrom(With(own, Midway(stock, patched, left, false)), it) ==
            if MarkedDangles(stock, patched, left, MARK in own) then None else Some(Midway(stock, patched, {}, false))
    decreases own.Keys, left, Ahead(With(own, Midway(stock, patched, left, false)).Keys, it)
  {
    hide *;
    BackupNames();
    var mid := Midway(stock, patched, left, false);
    var m := With(own, mid);
    if own == map[] {
      WithNothing(mid);
      NotMarked(stock, patched, left);
      WalkRestores(stock, patched, left, false, it);
    } else if it.None? {
      NoneAhead(own);
    } else {
      var k := it.value;
      WithHas(stock, patched, left, own, k);
      OwnThere(own, mid);
      StepsOver(m, k, own);
      MidwayKeys(stock, patched, left, false);
      LeftThere(own, mid, left);
      StepKeeps(m.Keys, left, false, k);
      var next := Next(m.Keys, k);
      if k in own {
        OwnStays(own, k);
        PastOwn(stock, patched, left, k, next);
        ErasesOwn(own, mid, k);
        if k == MARK { MarkPassed(stock, patched, left); }
        MarkNames();
        WalkMarked(stock, patched, left, own - {k}, next);
      } else if BACKUP_DIR <= k && k[8..] in left {
        var x := k[8..];
        assert k == BACKUP_DIR + x;
        AtMarkedBackup(stock, patched, left, own, x);
        MarkedLater(stock, patched, left, MARK in own, x);
        assert own - {k} == own;
        if next != Some(x) {
          WalkMarked(stock, patched, left - {x}, own, next);
        }
      } else {
        AtMarkedStock(stock, patched, left, own, k);
        assert own - {k} == own;
        WalkMarked(stock, patched, left, own, next);
      }
    }
  }

  lemma WithNothing(m: Entries)
    ensures With(map[], m) == m
  {
  }

  lemma NoneAhead(own: Entries)
    requires OwnAhead(own, None)
    ensures own == map[]
  {
    forall z ensures z !in own { var passed := !NotYet(None, z); }
  }

  lemma OwnThere(own: Entries, mid: Entries)
    ensures own.Keys <= With(own, mid).Keys
  {
  }

  lemma LeftThere(own: Entries, mid: Entries, left: set<string>)
    requires forall x :: x in left ==> BACKUP_DIR + x in mid
    ensures forall x :: x in left ==> BACKUP_DIR + x in With(own, mid).Keys
  {
  }

  lemma OwnStays(own: Entries, k: string)
    requires Own(own) && k in own
    ensures Own(own - {k})
    ensures (MARK in own - {k}) <==> MARK in own && k != MARK
    ensures (own - {k}).Keys < own.Keys
  {
  }

  /** Passing one of the own entries leaves all backups ahead. */
  lemma PastOwn(stock: Entries, patched: Entries, left: set<string>, k: string, next: Option<string>)
    requires left <= BackedNames(stock, patched) && AllOrdinary(stock) && (k == BACKUP || k == MARK)
    requires StillAhead(if BACKUP_DIR <= k then left - {k[8..]} else left, false, next)
    ensures StillAhead(left, false, next)
  {
    MarkNames();
    if ".magisk" in left { LeftOrdinary(stock, patched, left, ".magisk"); }
    assert left - {".magisk"} == left;
  }

  /** What the installer makes of the archive that `backup` left. */
  ghost function Marked(b: Entries, d: Entry, e: Entry): Entries {
    b[BACKUP := d][MARK := e]
  }

  /** Name `z` stands in `n` as in the archive that the walk starts from. */
  ghost predicate Stands(stock: Entries, patched: Entries, d: Entry, e: Entry, n: Entries, z: string) {
    var m := With(map[BACKUP := d, MARK := e], Midway(stock, patched, BackedNames(stock, patched), false));
    (z in n <==> z in m) && (z in n ==> n[z] == m[z])
  }

  /** What `backup` returns, name by name. */
  ghost predicate BackedAt(stock: Entries, patched: Entries, b: Entries, z: string) {
    && (z in patched ==> z in b && b[z] == patched[z])
    && (z !in patched && z != BACKUP && z != RMLIST ==>
        && (z in b <==> BACKUP_DIR <= z && z[8..] in BackedNames(stock, patched))
        && (z in b ==> b[z] == stock[z[8..]]))
  }

  lemma BackedUpAt(patched0: Entries, stock: Entries, z: string)
    requires AllOrdinary(stock)
    ensures BackedAt(stock, Without(patched0, BACKUP, true), BackedUp(patched0, stock), z)
  {
    hide Kept, NewNames, Without, BackedUp, AllOrdinary, Ordinary, Backed, BackedAt, ListEntry;
    var patched := Without(patched0, BACKUP, true);
    var added := NewNames(stock, patched, First(patched.Keys));
    var none := added == [] && BackedNames(stock, patched) == {};
    BackedUpIs(patched0, stock);
    KeptHas(stock, patched, z);
    JoinedAt(Kept(stock, patched, stock.Keys), patched, added, none, BackedUp(patched0, stock), z);
    BackedAtIs(stock, patched, BackedUp(patched0, stock), z);
  }

  lemma JoinedAt(kept: Entries, patched: Entries, added: string, none: bool, b: Entries, z: string)
    requires b == if none then patched
                  else
                    (if added == [] then map[BACKUP := BACKUP_ENTRY] + kept
                     else (map[BACKUP := BACKUP_ENTRY] + kept)[RMLIST := ListEntry(added)]) + patched
    ensures z in patched ==> z in b && b[z] == patched[z]
    ensures z !in patched && z != BACKUP && z != RMLIST ==>
              (z in b <==> !none && z in kept) && (z in b ==> b[z] == kept[z])
  {
    hide *;
  }

  lemma BackedAtIs(stock: Entries, patched: Entries, b: Entries, z: string)
    requires z in patched ==> z in b && b[z] == patched[z]
    requires z !in patched && z != BACKUP && z != RMLIST ==>
              (z in b <==> BACKUP_DIR <= z && z[8..] in BackedNames(stock, patched))
    requires z !in patched && z != BACKUP && z != RMLIST && z in b ==> z[8..] in stock && b[z] == stock[z[8..]]
    ensures BackedAt(stock, patched, b, z)
  {
    hide BackedNames;
  }

  lemma RestAt(stock: Entries, patched: Entries, b: Entries, d: Entry, e: Entry, gone: set<string>, n: Entries,
      z: string)
    requires AllOrdinary(stock) && NoBackups(patched) && BackedAt(stock, patched, b, z)
    requires z in gone <==> z in patched && z !in stock
    requires n == Marked(b, d, e) - gone - {RMLIST}
    ensures Stands(stock, patched, d, e, n, z)
  {
    var left := BackedNames(stock, patched);
    MarkNames();
    MidwayHas(stock, patched, left, false, z);
    MidwayAt(stock, patched, left, false, z);
    WithHas(stock, patched, left, map[BACKUP := d, MARK := e], z);
    IsBacked(stock, patched, z);
    NoneThere(patched, z);
    ListNotLeft(stock, patched);
    hide Midway, BackedNames, Backed, NoBackups, AllOrdinary, With;
  }

  lemma ListNotLeft(stock: Entries, patched: Entries)
    requires AllOrdinary(stock)
    ensures RMLIST[8..] !in BackedNames(stock, patched) && BACKUP_DIR <= RMLIST && RMLIST != MARK && RMLIST != BACKUP
  {
    assert RMLIST[8..] == ".rmlist" && !Ordinary(".rmlist");
  }

  /** The list worked off: the own entries, and what the walk starts from. */
  lemma ListWorkedOff(patched0: Entries, stock: Entries, d: Entry, e: Entry)
    requires AllOrdinary(stock) && CNames(patched0)
    ensures var patched := Without(patched0, BACKUP, true);
            var m := With(map[BACKUP := d, MARK := e], Midway(stock, patched, BackedNames(stock, patched), false));
            Restored(Marked(BackedUp(patched0, stock), d, e)) == RestoreFrom(m, First(m.Keys))
  {
    var patched := Without(patched0, BACKUP, true);
    WithoutBackups(patched0);
    WalkStarts(patched.Keys);
    var (b, gone) := (BackedUp(patched0, stock), NewAhead(stock, patched, First(patched.Keys)));
    assert forall k :: k in gone <==> k in patched && k !in stock;
    var n := Marked(b, d, e) - gone - {RMLIST};
    forall z ensures Stands(stock, patched, d, e, n, z) {
      BackedUpAt(patched0, stock, z);
      RestAt(stock, patched, b, d, e, gone, n, z);
    }
    AllStand(stock, patched, d, e, n);
    ListRemoved(patched0, stock, d, e);
  }

  lemma AllStand(stock: Entries, patched: Entries, d: Entry, e: Entry, n: Entries)
    requires forall z :: Stands(stock, patched, d, e, n, z)
    ensures n == With(map[BACKUP := d, MARK := e], Midway(stock, patched, BackedNames(stock, patched), false))
  {
    hide Midway, BackedNames, With;
    var m := With(map[BACKUP := d, MARK := e], Midway(stock, patched, BackedNames(stock, patched), false));
    forall z ensures (z in n <==> z in m) && (z in n ==> n[z] == m[z]) { assert Stands(stock, patched, d, e, n, z); }
    assert n.Keys == m.Keys;
  }

  lemma ListRemoved(patched0: Entries, stock: Entries, d: Entry, e: Entry)
    requires AllOrdinary(stock) && CNames(patched0)
    ensures var patched := Without(patched0, BACKUP, true);
            var m := Marked(BackedUp(patched0, stock), d, e);
            var n := m - NewAhead(stock, patched, First(patched.Keys)) - {RMLIST};
            Restored(m) == RestoreFrom(n, First(n.Keys))
  {
    var patched := Without(patched0, BACKUP, true);
    WithoutBackups(patched0);
    BackedUpIs(patched0, stock);
    NoListYet(stock, patched);
    MarkNames();
    var (b, added) := (BackedUp(patched0, stock), NewNames(stock, patched, First(patched.Keys)));
    NewNamesRemoved(stock, patched, First(patched.Keys), Marked(b, d, e));
    hide RestoreFrom, Ordinary, AllOrdinary, Removed, Kept, NewNames, NewAhead, NoBackups, Without, BackedUp;
    assert RMLIST in Marked(b, d, e) <==> added != [];
    if added == [] {
      assert Marked(b, d, e) - {} == Marked(b, d, e);
    }
  }

  /**
   * Patched, backed up, completed by the installer, and restored: the stock names and contents come back, and nothing
   * else is left, exactly when the greatest name backed up is not adjacent to its backup, or the configuration stands
   * in between.
   */
  lemma MarkedRestore(patched0: Entries, stock: Entries, d: Entry, e: Entry)
    requires AllOrdinary(stock) && CNames(patched0) && "ramdisk.cpio.xz" !in patched0
    ensures "ramdisk.cpio.xz" !in Marked(BackedUp(patched0, stock), d, e)
    ensures var patched := Without(patched0, BACKUP, true);
            var r := Restored(Marked(BackedUp(patched0, stock), d, e));
            && (r.Some? && SameContents(stock, r.value) <==>
                !MarkedDangles(stock, patched, BackedNames(stock, patched), true))
            && (r.Some? ==> r.value.Keys == stock.Keys && forall k :: k in stock ==>
                  r.value[k] == if Backed(stock, patched, k) then stock[k] else patched[k])
  {
    hide *;
    var patched := Without(patched0, BACKUP, true);
    var (left, own) := (BackedNames(stock, patched), map[BACKUP := d, MARK := e]);
    ListWorkedOff(patched0, stock, d, e);
    NoArchive(patched0, stock);
    NoArchiveMarked(BackedUp(patched0, stock), d, e);
    WalkFromFirst(stock, patched, left, own);
    WalkMarked(stock, patched, left, own, First(With(own, Midway(stock, patched, left, false)).Keys));
    StockBack(stock, patched);
  }

  lemma NoArchiveMarked(b: Entries, d: Entry, e: Entry)
    requires "ramdisk.cpio.xz" !in b
    ensures "ramdisk.cpio.xz" !in Marked(b, d, e)
  {
    assert "ramdisk.cpio.xz"[0] != BACKUP[0] && "ramdisk.cpio.xz"[0] != MARK[0];
  }

  lemma WalkFromFirst(stock: Entries, patched: Entries, left: set<string>, own: Entries)
    requires left == BackedNames(stock, patched) && own.Keys == {BACKUP, MARK}
    ensures var it := First(With(own, Midway(stock, patched, left, false)).Keys);
            && Own(own) && MARK in own && left <= BackedNames(stock, patched)
            && StillAhead(left, false, it) && OwnAhead(own, it)
            && (it.Some? ==> it.value in With(own, Midway(stock, patched, left, false)))
  {
    var keys := With(own, Midway(stock, patched, left, false)).Keys;
    MidwayKeys(stock, patched, left, false);
    WalkStarts(keys);
    hide Midway;
    forall x | x in left ensures NotYet(First(keys), BACKUP_DIR + x) {
      assert BACKUP_DIR + x in Ahead(keys, First(keys));
    }
    forall z | z in own ensures NotYet(First(keys), z) { assert z in Ahead(keys, First(keys)); }
  }

  /** The same by the loops, with the two entries put in as the installer does. */
  method InstallAndRestore(patched0: Entries, stock: Entries, d: Entry, e: Entry) returns (r: Option<Entries>)
    requires AllOrdinary(stock) && CNames(patched0) && "ramdisk.cpio.xz" !in patched0
    ensures var patched := Without(patched0, BACKUP, true);
            r.Some? && SameContents(stock, r.value) <==>
            !MarkedDangles(stock, patched, BackedNames(stock, patched), true)
  {
    MarkedRestore(patched0, stock, d, e);
    var b := Backup(patched0, stock);
    assert Marked(b, d, e) == b[BACKUP := d][MARK := e];
    hide *;
    b := b[BACKUP := d][MARK := e];
    r := Restore(b);
  }
}
