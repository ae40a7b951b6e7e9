/** Two-level page tables, and the flat map from virtual to physical pages that they stand for. */
module PageTable {
  const ENTRIES := 1024
  const USER_PAGES := 0x80000   // virtual pages below KERNBASE
  const ALL_PAGES := 0x100000

  /** An entry of a directory or of a table. */
  datatype Pte = Pte(present: bool, user: bool, frame: nat)

  const ABSENT := Pte(false, false, 0)

  /** The frames that hold directories and tables. */
  type Tables = map<nat, seq<Pte>>

  predicate Shaped(tables: Tables) {
    forall t :: t in tables ==> |tables[t]| == ENTRIES
  }

  /** A directory leads to tables of its own, each by one entry. */
  ghost predicate DirOk(tables: Tables, d: nat) {
    && Shaped(tables) && d in tables
    && (forall i :: 0 <= i < ENTRIES && tables[d][i].present ==>
          tables[d][i].frame in tables && tables[d][i].frame != d)
    && (forall i, j :: 0 <= i < j < ENTRIES && tables[d][i].present && tables[d][j].present ==>
          tables[d][i].frame != tables[d][j].frame)
  }

  /** What the two levels say about a virtual page. */
  function Lookup(tables: Tables, d: nat, v: nat): Pte {
    if d in tables && |tables[d]| == ENTRIES && v < ALL_PAGES && tables[d][v / ENTRIES].present then
      var t := tables[d][v / ENTRIES].frame;
      if t in tables && |tables[t]| == ENTRIES then tables[t][v % ENTRIES] else ABSENT
    else ABSENT
  }

  /** Writing one entry of one table changes the map at that page alone. */
  lemma SetEntry(tables: Tables, d: nat, v: nat, pte: Pte)
    requires DirOk(tables, d) && v < ALL_PAGES && tables[d][v / ENTRIES].present
    ensures var t := tables[d][v / ENTRIES].frame;
            var tables' := tables[t := tables[t][v % ENTRIES := pte]];
            DirOk(tables', d) && tables'[d] == tables[d]
            && forall w: nat :: w < ALL_PAGES ==> Lookup(tables', d, w) == if w == v then pte else Lookup(tables, d, w)
  {
    var t := tables[d][v / ENTRIES].frame;
    var tables' := tables[t := tables[t][v % ENTRIES := pte]];
    forall w: nat | w < ALL_PAGES
      ensures Lookup(tables', d, w) == if w == v then pte else Lookup(tables, d, w)
    {
      assert w == w / ENTRIES * ENTRIES + w % ENTRIES;
      assert w / ENTRIES == v / ENTRIES || !tables[d][w / ENTRIES].present || tables[d][w / ENTRIES].frame != t;
    }
  }

  function EmptyTable(): (s: seq<Pte>)
    ensures |s| == ENTRIES && forall i :: 0 <= i < ENTRIES ==> s[i] == ABSENT
  {
    seq(ENTRIES, _ => ABSENT)
  }

  /** A new empty table changes nothing. */
  lemma AddTable(tables: Tables, d: nat, i: nat, t: nat)
    requires DirOk(tables, d) && i < ENTRIES && !tables[d][i].present && t !in tables
    ensures var tables' := tables[t := EmptyTable()][d := tables[d][i := Pte(true, true, t)]];
            DirOk(tables', d) && forall w: nat :: w < ALL_PAGES ==> Lookup(tables', d, w) == Lookup(tables, d, w)
  {
    var tables' := tables[t := EmptyTable()][d := tables[d][i := Pte(true, true, t)]];
    forall w: nat | w < ALL_PAGES ensures Lookup(tables', d, w) == Lookup(tables, d, w) {
    }
  }

  /** A directory is not affected by what happens to tables that are not its own. */
  lemma Elsewhere(tables: Tables, tables': Tables, d: nat)
    requires DirOk(tables, d) && Shaped(tables')
    requires forall t :: t in tables ==> t in tables' && tables'[t] == tables[t]
    ensures DirOk(tables', d) && forall w: nat :: w < ALL_PAGES ==> Lookup(tables', d, w) == Lookup(tables, d, w)
  {
  }
}
