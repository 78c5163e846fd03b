/** What removing, backing up and restoring do to an archive, name by name, with every name written out. */
module RamdiskContents {
  import opened Base
  import opened Names
  import opened Cpio
  import opened Ramdisk

  // ------------------------------------------------------------ removing

  /** A name that lies in a directory. */
  ghost predicate Below(k: string, dir: string) {
    exists rest: string :: k == dir + "/" + rest
  }

  /** `rm` takes the name itself and, recursively, what lies in that directory; nothing else goes, nothing changes. */
  lemma RmTakes(m: Entries, name: string, r: bool, k: string)
    ensures k in Without(m, name, r) <==> k in m && k != name && !(r && Below(k, name))
    ensures k in Without(m, name, r) ==> Without(m, name, r)[k] == m[k]
  {
    if name + "/" <= k { assert k == name + "/" + k[|name| + 1..]; }
    if rest: string :| k == name + "/" + rest { assert name + "/" <= k; }
  }

  /** A name that only begins alike lies in no such directory: "overlay.d/x" stays when "overlay" goes. */
  lemma NotBelow(m: Entries, name: string, k: string)
    requires k in m && name <= k && |k| > |name| && k[|name|] != '/'
    ensures k in Without(m, name, true)
  {
    RmTakes(m, name, true, k);
    forall rest: string ensures k != name + "/" + rest { assert (name + "/" + rest)[|name|] == '/'; }
  }

  // ------------------------------------------------------------ restoring an archive that holds no backups

  /** Left-overs of an installation without backups. */
  ghost predicate LeftOver(k: string) {
    "magisk" <= k || k in {"overlay/init.magisk.rc", "sbin/magic_mask.sh", "init.magisk.rc"}
  }

  ghost predicate NoneBackedUp(m: Entries) {
    forall k :: k in m ==> !(".backup" <= k)
  }

  ghost function Rid(m: Entries, passed: set<string>): Entries {
    map k | k in m && !(k in passed && LeftOver(k)) :: m[k]
  }

  lemma {:induction false} WalkRids(m: Entries, it: Option<string>)
    requires (it.Some? ==> it.value in m) && NoneBackedUp(m)
    ensures RestoreFrom(m, it) == Some(Rid(m, Ahead(m.Keys, it)))
    decreases Weight(m.Keys), Ahead(m.Keys, it)
  {
    if it.Some? {
      var k := it.value;
      var next := Next(m.Keys, k);
      WalkSteps(m.Keys, k);
      WeightWithout(m.Keys, k);
      var n := if LeftOver(k) then m - {k} else m;
      assert n.Keys == if LeftOver(k) then m.Keys - {k} else m.Keys;
      assert Ahead(n.Keys, next) == Ahead(m.Keys, next);
      WalkRids(n, next);
      RidOn(m, it, next);
      KnownNames(k);
      hide Rid, LeftOver, Known, Weight;
      RestoreStep(m, k);
    } else {
      assert Rid(m, Ahead(m.Keys, it)) == m;
    }
  }

  lemma RestoreStep(m: Entries, k: string)
    requires k in m && !(".backup" <= k)
    ensures var n := if Known(k) then m - {k} else m;
            (Next(m.Keys, k).Some? ==> Next(m.Keys, k).value in n)
            && RestoreFrom(m, Some(k)) == RestoreFrom(n, Next(m.Keys, k))
  {
    WalkSteps(m.Keys, k);
    WeightWithout(m.Keys, k);
    assert (m - {k}).Keys == m.Keys - {k};
    LessTotal(k, k);
    hide Known, Weight;
  }

  lemma RidOn(m: Entries, it: Option<string>, next: Option<string>)
    requires it.Some? && it.value in m && next == Next(m.Keys, it.value)
    ensures var n := if LeftOver(it.value) then m - {it.value} else m;
            Rid(n, Ahead(n.Keys, next)) == Rid(m, Ahead(m.Keys, it))
  {
    var (k, n) := (it.value, if LeftOver(it.value) then m - {it.value} else m);
    WalkSteps(m.Keys, k);
    hide LeftOver;
    assert n.Keys == if LeftOver(k) then m.Keys - {k} else m.Keys;
    assert Ahead(n.Keys, next) == Ahead(m.Keys, it) - {k};
    var (r, s) := (Rid(n, Ahead(n.Keys, next)), Rid(m, Ahead(m.Keys, it)));
    assert forall x :: x in r <==> x in s;
  }

  lemma KnownNames(k: string)
    ensures Known(k) <==> LeftOver(k)
  {
  }

  /** Restoring an archive without backups takes out the left-overs, and nothing else. */
  lemma RestoreRids(m: Entries)
    requires NoneBackedUp(m)
    ensures Restored(m) == Some(map k | k in m && !LeftOver(k) :: m[k])
  {
    assert ".backup" <= RMLIST;
    assert m - {RMLIST} == m;
    assert Rid(m, m.Keys) == map k | k in m && !LeftOver(k) :: m[k];
    hide LeftOver;
    WalkRids(m, First(m.Keys));
    WalkStarts(m.Keys);
    hide RestoreFrom;
  }

  // ------------------------------------------------------------ what a backup holds

  /** The entry of the stock archive is gone from the other, or other data stand there. */
  ghost predicate Differs(stock: Entries, patched: Entries, k: string) {
    k in stock && (k in patched ==> patched[k].data != stock[k].data)
  }

  ghost function Outside(m: Entries): (n: Entries) {
    map k | k in m && k != ".backup" && !Below(k, ".backup") :: m[k]
  }

  lemma OutsideIs(m: Entries)
    ensures Outside(m) == Without(m, ".backup", true)
  {
    forall k ensures k in Outside(m) <==> k in Without(m, ".backup", true) { RmTakes(m, ".backup", true, k); }
  }

  /** The added names, each ended by a NUL. */
  ghost predicate NamesList(data: string, names: seq<string>) {
    if names == [] then data == [] else
      |names[0]| < |data| && data[..|names[0]| + 1] == names[0] + "\0"
      && NamesList(data[|names[0]| + 1..], names[1..])
  }

  lemma ListGrows(k: string, rest: string, names: seq<string>)
    requires NamesList(rest, names)
    ensures NamesList(k + "\0" + rest, [k] + names)
  {
    var data := k + "\0" + rest;
    assert data[..|k| + 1] == k + "\0" && data[|k| + 1..] == rest;
    assert ([k] + names)[1..] == names && ([k] + names)[0] == k;
  }

  lemma {:induction false} ListOf(stock: Entries, patched: Entries, it: Option<string>) returns (names: seq<string>)
    requires it.Some? ==> it.value in patched
    ensures NamesList(NewNames(stock, patched, it), names)
    ensures forall k :: k in names <==> k in patched && k !in stock && NotYet(it, k)
    ensures forall i, j :: 0 <= i < j < |names| ==> Less(names[i], names[j])
    decreases Ahead(patched.Keys, it)
  {
    names := [];
    if it.Some? {
      var k := it.value;
      var next := Next(patched.Keys, k);
      WalkSteps(patched.Keys, k);
      names := ListOf(stock, patched, next);
      assert forall x :: x in patched ==> (x in Ahead(patched.Keys, next) <==> NotYet(next, x));
      assert forall x :: x in patched ==> (x in Ahead(patched.Keys, it) <==> NotYet(it, x));
      if k !in stock {
        var (data, rest) := (NewNames(stock, patched, it), NewNames(stock, patched, next));
        assert data == (k + ['\0']) + rest && k + ['\0'] == k + "\0";
        ListGrows(k, rest, names);
        forall j | 0 <= j < |names| ensures Less(k, names[j]) {
          assert names[j] in names;
          LessTotal(k, names[j]);
        }
        names := [k] + names;
      } else {
        assert NewNames(stock, patched, it) == [] + NewNames(stock, patched, next) == NewNames(stock, patched, next);
      }
    }
  }

  /**
   * What stands under a name after `backup`: the patched entry, if there is one. If anything has changed, there are the
   * directory, the list of what is new, and below ".backup/" the stock entries that differ.
   */
  ghost function Holds(stock: Entries, patched: Entries, data: string, z: string): Option<Entry> {
    if z in patched then Some(patched[z])
    else if data == "" && !(exists k :: Differs(stock, patched, k)) then None
    else if z == ".backup" then Some(Entry(0x4000, 0, 0, ""))
    else if z == ".backup/.rmlist" && data != "" then Some(Entry(0x8000, 0, 0, data))
    else if ".backup/" <= z && Differs(stock, patched, z[8..]) then Some(stock[z[8..]])
    else None
  }

  /**
   * `backup`, name by name. The list names, in order, what the patched archive holds and the stock archive does not.
   */
  lemma BackupHolds(patched0: Entries, stock0: Entries) returns (names: seq<string>, data: string)
    ensures var (stock, patched, m) := (Outside(stock0), Outside(patched0), BackedUp(patched0, stock0));
            && (forall z :: (z in m <==> Holds(stock, patched, data, z).Some?)
                            && (z in m ==> m[z] == Holds(stock, patched, data, z).value))
            && NamesList(data, names) && (forall k :: k in names <==> k in patched && k !in stock)
    ensures forall i, j :: 0 <= i < j < |names| ==> Less(names[i], names[j])
  {
    var stock, patched := Outside(stock0), Outside(patched0);
    OutsideIs(stock0);
    OutsideIs(patched0);
    hide Outside;
    WalkStarts(patched.Keys);
    names := ListOf(stock, patched, First(patched.Keys));
    data := NewNames(stock, patched, First(patched.Keys));
    assert forall k :: k in patched ==> k in Ahead(patched.Keys, First(patched.Keys));
    var kept := map[BACKUP := BACKUP_ENTRY] + Kept(stock, patched, stock.Keys);
    var all := if data == [] then kept else kept[RMLIST := ListEntry(data)];
    SizeOfBackup(stock, patched, data, all);
    var m := BackedUp(patched0, stock0);
    assert m == if |all| > 1 then all + patched else patched;
    hide NewNames, BackedUp, Kept, NamesList;
    forall z ensures (z in m <==> Holds(stock, patched, data, z).Some?)
                     && (z in m ==> m[z] == Holds(stock, patched, data, z).value) {
      HoldsAt(stock, patched, data, all, m, z);
    }
  }

  lemma HoldsAt(stock: Entries, patched: Entries, data: string, all: Entries, m: Entries, z: string)
    requires var kept := map[BACKUP := BACKUP_ENTRY] + Kept(stock, patched, stock.Keys);
             all == if data == [] then kept else kept[RMLIST := ListEntry(data)]
    requires |all| > 1 <==> !(data == [] && BackedNames(stock, patched) == {})
    requires m == if |all| > 1 then all + patched else patched
    ensures z in m <==> Holds(stock, patched, data, z).Some?
    ensures z in m ==> m[z] == Holds(stock, patched, data, z).value
  {
    hide *;
    KeptHas(stock, patched, z);
    Changed(stock, patched);
    if ".backup/" <= z { DifferentNames(stock, patched, z[8..]); }
    AllAt(Kept(stock, patched, stock.Keys), data, all, z);
    HoldsIs(stock, patched, data, data != [] || BackedNames(stock, patched) != {}, z);
  }

  lemma AllAt(kept: Entries, data: string, all: Entries, z: string)
    requires all == if data == [] then map[BACKUP := BACKUP_ENTRY] + kept
                    else (map[BACKUP := BACKUP_ENTRY] + kept)[RMLIST := ListEntry(data)]
    requires BACKUP !in kept
    ensures BACKUP_DIR == ".backup/"
    ensures z == ".backup" ==> z in all && all[z] == Entry(0x4000, 0, 0, "")
    ensures z == ".backup/.rmlist" && data != [] ==> z in all && all[z] == Entry(0x8000, 0, 0, data)
    ensures z != ".backup" && !(z == ".backup/.rmlist" && data != []) ==>
              (z in all <==> z in kept) && (z in kept ==> all[z] == kept[z])
  {
    assert |BACKUP| != |RMLIST|;
  }

  lemma HoldsIs(stock: Entries, patched: Entries, data: string, changed: bool, z: string)
    requires changed <==> data != [] || exists k :: Differs(stock, patched, k)
    ensures Holds(stock, patched, data, z) ==
            if z in patched then Some(patched[z])
            else if !changed then None
            else if z == ".backup" then Some(Entry(0x4000, 0, 0, ""))
            else if z == ".backup/.rmlist" && data != [] then Some(Entry(0x8000, 0, 0, data))
            else if ".backup/" <= z && Differs(stock, patched, z[8..]) then Some(stock[z[8..]])
            else None
  {
  }

  lemma DifferentNames(stock: Entries, patched: Entries, k: string)
    ensures Differs(stock, patched, k) <==> k in BackedNames(stock, patched)
    ensures Differs(stock, patched, k) ==> k in stock
  {
  }

  lemma Changed(stock: Entries, patched: Entries)
    ensures (exists k :: Differs(stock, patched, k)) <==> BackedNames(stock, patched) != {}
  {
    hide Differs, BackedNames;
    if k :| Differs(stock, patched, k) { DifferentNames(stock, patched, k); }
    if BackedNames(stock, patched) != {} {
      var k :| k in BackedNames(stock, patched);
      DifferentNames(stock, patched, k);
    }
  }
}
