/**
 * The embedded database the repositories talk to, reduced to what the
 * schema guarantees: table `dosen` (key `npp`) and table `mahasiswa` (key
 * `nim`), the NOT NULL and CHECK constraints, the primary keys, and the
 * foreign key `mahasiswa.dosen_wali -> dosen.npp ON DELETE SET NULL` with
 * foreign-key enforcement switched on.
 */
module Store {
  import opened Wrappers
  import opened Text
  import opened DosenModel
  import opened MahasiswaModel

  /** The constraint a rejected statement violated. */
  datatype Constraint = PrimaryKey | NotNull | Check | ForeignKey

  /** What `executeUpdate()` reports: the number of rows it changed, or the `SQLException`. */
  datatype SqlResult = Affected(count: nat) | Violated(constraint: Constraint)

  /** The gist of the engine's message for each violated constraint. */
  function ConstraintMessage(c: Constraint): string {
    match c
    case PrimaryKey => "UNIQUE constraint failed"
    case NotNull => "NOT NULL constraint failed"
    case Check => "CHECK constraint failed"
    case ForeignKey => "FOREIGN KEY constraint failed"
  }

  /** A row of `dosen` kept under key `k`: `npp TEXT PRIMARY KEY, nama TEXT NOT NULL, no_hp TEXT`. */
  predicate DosenRowOk(k: string, r: DosenRecord) {
    r.npp == Some(k) && r.nama.Some?
  }

  /**
   * The constraint a `mahasiswa` row breaks on its own columns, in the order
   * the engine checks them: NOT NULL (`nim` counted as such, see README), then
   * CHECK (gender in the two constants, `ipk >= 0.0 AND ipk <= 4.0`).  The
   * engine tests these before the primary key, and the foreign key last.
   */
  function ColumnViolation(r: MahasiswaRecord): (c: Option<Constraint>)
    ensures c.None? <==>
            && r.nim.Some? && r.nama.Some? && r.gender.Some?
            && r.gender.value in {GenderLaki, GenderPerempuan} && 0.0 <= r.ipk <= 4.0
    ensures c == Some(NotNull) <==> r.nim.None? || r.nama.None? || r.gender.None?
    ensures c.Some? ==> c.value == NotNull || c.value == Check
  {
    if r.nim.None? || r.nama.None? || r.gender.None? then Some(NotNull)
    else if !(r.gender.value == GenderLaki || r.gender.value == GenderPerempuan) then Some(Check)
    else if !(r.ipk >= 0.0 && r.ipk <= 4.0) then Some(Check)
    else None
  }

  /** The constraint a `mahasiswa` row with these columns violates, if any, the foreign key coming last. */
  function MahasiswaViolation(dosen: map<string, DosenRecord>, r: MahasiswaRecord): (c: Option<Constraint>)
    ensures c.None? <==>
            && r.nim.Some? && r.nama.Some? && r.gender.Some?
            && r.gender.value in {GenderLaki, GenderPerempuan} && 0.0 <= r.ipk <= 4.0
            && (r.dosenWali.Some? ==> r.dosenWali.value in dosen)
    ensures c == Some(ForeignKey) <==> ColumnViolation(r).None? && r.dosenWali.Some? && r.dosenWali.value !in dosen
  {
    if ColumnViolation(r).Some? then ColumnViolation(r)
    else if r.dosenWali.Some? && r.dosenWali.value !in dosen then Some(ForeignKey)
    else None
  }

  /** Every row the schema admits, keyed by its own primary key. */
  ghost predicate Schema(dosen: map<string, DosenRecord>, mahasiswa: map<string, MahasiswaRecord>) {
    && (forall k :: k in dosen ==> DosenRowOk(k, dosen[k]))
    && (forall k :: k in mahasiswa ==> mahasiswa[k].nim == Some(k) && MahasiswaViolation(dosen, mahasiswa[k]).None?)
  }

  /** Every stored row also passes its record's `isValid()`: what the repositories add on top of the schema. */
  ghost predicate RecordsValid(dosen: map<string, DosenRecord>, mahasiswa: map<string, MahasiswaRecord>) {
    && (forall k :: k in dosen ==> dosen[k].IsValid())
    && (forall k :: k in mahasiswa ==> mahasiswa[k].IsValid())
  }

  /** `ON DELETE SET NULL`: the students advised by `npp` lose their advisor, every other row is kept. */
  function ClearDosenWali(mahasiswa: map<string, MahasiswaRecord>, npp: string): (r: map<string, MahasiswaRecord>)
    ensures r.Keys == mahasiswa.Keys
    ensures forall k :: k in r ==> r[k].dosenWali != Some(npp)
    ensures forall k :: k in r ==> r[k].(dosenWali := mahasiswa[k].dosenWali) == mahasiswa[k]
    ensures forall k :: k in r && r[k].dosenWali.Some? ==> r[k].dosenWali == mahasiswa[k].dosenWali
    ensures forall k :: k in r && mahasiswa[k].dosenWali != Some(npp) ==> r[k] == mahasiswa[k]
  {
    map k | k in mahasiswa :: if mahasiswa[k].dosenWali == Some(npp) then mahasiswa[k].(dosenWali := None) else mahasiswa[k]
  }

  /** Deleting a lecturer keeps every remaining row valid: clearing an advisor never breaks `isValid()`. */
  lemma DeleteKeepsRecordsValid(dosen: map<string, DosenRecord>, mahasiswa: map<string, MahasiswaRecord>, npp: string)
    requires RecordsValid(dosen, mahasiswa)
    ensures RecordsValid(dosen - {npp}, ClearDosenWali(mahasiswa, npp))
  {
  }

  /** The one shared database: both tables. */
  class Database {
    var dosen: map<string, DosenRecord>
    var mahasiswa: map<string, MahasiswaRecord>

    ghost predicate Valid()
      reads this
    {
      Schema(dosen, mahasiswa)
    }

    /** A fresh database: `CREATE TABLE IF NOT EXISTS` on an empty file. */
    constructor ()
      ensures Valid() && dosen == map[] && mahasiswa == map[]
    {
      dosen, mahasiswa := map[], map[];
    }

    /** `INSERT INTO dosen (npp, nama, no_hp) VALUES (?, ?, ?)`. */
    method InsertDosen(r: DosenRecord) returns (res: SqlResult)
      requires Valid()
      modifies this
      ensures Valid() && mahasiswa == old(mahasiswa)
      ensures r.npp.None? || r.nama.None? ==> res == Violated(NotNull)
      ensures r.npp.Some? && r.nama.Some? && r.npp.value in old(dosen) ==> res == Violated(PrimaryKey)
      ensures r.npp.Some? && r.nama.Some? && r.npp.value !in old(dosen) ==> res == Affected(1)
      ensures dosen == if res.Affected? then old(dosen)[r.npp.value := r] else old(dosen)
    {
      if r.npp.None? || r.nama.None? {
        return Violated(NotNull);
      }
      if r.npp.value in dosen {
        return Violated(PrimaryKey);
      }
      dosen := dosen[r.npp.value := r];
      res := Affected(1);
    }

    /** `UPDATE dosen SET nama = ?, no_hp = ? WHERE npp = ?`. */
    method UpdateDosen(npp: Option<string>, nama: Option<string>, noHp: Option<string>) returns (res: SqlResult)
      requires Valid()
      modifies this
      ensures Valid() && mahasiswa == old(mahasiswa)
      ensures npp.None? || npp.value !in old(dosen) ==> res == Affected(0)
      ensures npp.Some? && npp.value in old(dosen) && nama.None? ==> res == Violated(NotNull)
      ensures npp.Some? && npp.value in old(dosen) && nama.Some? ==> res == Affected(1)
      ensures dosen == if res == Affected(1) then old(dosen)[npp.value := DosenRecord(npp, nama, noHp)]
                       else old(dosen)
    {
      if npp.None? || npp.value !in dosen {
        return Affected(0);
      }
      if nama.None? {
        return Violated(NotNull);
      }
      dosen := dosen[npp.value := DosenRecord(npp, nama, noHp)];
      res := Affected(1);
    }

    /** `DELETE FROM dosen WHERE npp = ?`, with the `ON DELETE SET NULL` cascade on `mahasiswa`. */
    method DeleteDosen(npp: Option<string>) returns (res: SqlResult)
      requires Valid()
      modifies this
      ensures Valid()
      ensures res == if npp.Some? && npp.value in old(dosen) then Affected(1) else Affected(0)
      ensures dosen == if res == Affected(1) then old(dosen) - {npp.value} else old(dosen)
      ensures mahasiswa == if res == Affected(1) then ClearDosenWali(old(mahasiswa), npp.value)
                           else old(mahasiswa)
    {
      if npp.None? || npp.value !in dosen {
        return Affected(0);
      }
      dosen := dosen - {npp.value};
      mahasiswa := ClearDosenWali(mahasiswa, npp.value);
      res := Affected(1);
    }

    /** `INSERT INTO mahasiswa (nim, nama, gender, ipk, dosen_wali) VALUES (?, ?, ?, ?, ?)`: columns, then key, then the foreign key. */
    method InsertMahasiswa(r: MahasiswaRecord) returns (res: SqlResult)
      requires Valid()
      modifies this
      ensures Valid() && dosen == old(dosen)
      ensures ColumnViolation(r).Some? ==> res == Violated(ColumnViolation(r).value)
      ensures ColumnViolation(r).None? && r.nim.value in old(mahasiswa) ==> res == Violated(PrimaryKey)
      ensures ColumnViolation(r).None? && r.nim.value !in old(mahasiswa) ==>
                res == if MahasiswaViolation(old(dosen), r).Some? then Violated(ForeignKey) else Affected(1)
      ensures mahasiswa == if res.Affected? then old(mahasiswa)[r.nim.value := r] else old(mahasiswa)
    {
      var v := ColumnViolation(r);
      if v.Some? {
        return Violated(v.value);
      }
      if r.nim.value in mahasiswa {
        return Violated(PrimaryKey);
      }
      if MahasiswaViolation(dosen, r).Some? {
        return Violated(ForeignKey);
      }
      mahasiswa := mahasiswa[r.nim.value := r];
      res := Affected(1);
    }

    /** `UPDATE mahasiswa SET nama = ?, gender = ?, ipk = ?, dosen_wali = ? WHERE nim = ?`. */
    method UpdateMahasiswa(nim: Option<string>, nama: Option<string>, gender: Option<string>, ipk: real,
                           dosenWali: Option<string>) returns (res: SqlResult)
      requires Valid()
      modifies this
      ensures Valid() && dosen == old(dosen)
      ensures var r := MahasiswaRecord(nim, nama, gender, ipk, dosenWali);
              if nim.None? || nim.value !in old(mahasiswa) then res == Affected(0)
              else if MahasiswaViolation(old(dosen), r).Some? then res == Violated(MahasiswaViolation(old(dosen), r).value)
              else res == Affected(1)
      ensures mahasiswa == if res == Affected(1)
                           then old(mahasiswa)[nim.value := MahasiswaRecord(nim, nama, gender, ipk, dosenWali)]
                           else old(mahasiswa)
    {
      if nim.None? || nim.value !in mahasiswa {
        return Affected(0);
      }
      var r := MahasiswaRecord(nim, nama, gender, ipk, dosenWali);
      var v := MahasiswaViolation(dosen, r);
      if v.Some? {
        return Violated(v.value);
      }
      mahasiswa := mahasiswa[nim.value := r];
      res := Affected(1);
    }

    /** `DELETE FROM mahasiswa WHERE nim = ?`. */
    method DeleteMahasiswa(nim: Option<string>) returns (res: SqlResult)
      requires Valid()
      modifies this
      ensures Valid() && dosen == old(dosen)
      ensures res == if nim.Some? && nim.value in old(mahasiswa) then Affected(1) else Affected(0)
      ensures mahasiswa == if res == Affected(1) then old(mahasiswa) - {nim.value} else old(mahasiswa)
    {
      if nim.None? || nim.value !in mahasiswa {
        return Affected(0);
      }
      mahasiswa := mahasiswa - {nim.value};
      res := Affected(1);
    }
  }

  // ---------------------------------------------------------------------------
  // Queries: SELECT * FROM t [WHERE ...] ORDER BY nama
  // ---------------------------------------------------------------------------

  /** The rows `WHERE nama LIKE '%kw%'` keeps: a NULL name matches nothing. */
  function NameLike<R>(table: map<string, R>, nama: R -> Option<string>, kw: string): map<string, R>
  {
    map k | k in table && nama(table[k]).Some? && Contains(nama(table[k]).value, kw) :: table[k]
  }

  /** `LIKE '%kw%'` read positionally: a row is kept exactly when the keyword occurs somewhere in its name. */
  lemma NameLikeOccurs<R>(table: map<string, R>, nama: R -> Option<string>, kw: string, k: string)
    ensures k in NameLike(table, nama, kw) <==>
            k in table && nama(table[k]).Some? && exists i :: OccursAt(nama(table[k]).value, kw, i)
  {
    if k in table && nama(table[k]).Some? {
      ContainsIff(nama(table[k]).value, kw);
    }
  }

  /** Every row of `table` is stored under its own key. */
  predicate Keyed<R>(table: map<string, R>, key: R -> string) {
    forall k :: k in table ==> key(table[k]) == k
  }

  /** `rows` lists each row of `table` exactly once, and nothing else. */
  ghost predicate Lists<R>(rows: seq<R>, table: map<string, R>, key: R -> string) {
    && (forall i :: 0 <= i < |rows| ==> key(rows[i]) in table && table[key(rows[i])] == rows[i])
    && (forall k :: k in table ==> table[k] in rows)
    && (forall i, j :: 0 <= i < j < |rows| ==> key(rows[i]) != key(rows[j]))
  }

  /** Non-decreasing by name: `ORDER BY nama` (ties in any order). */
  predicate OrderedBy<R>(rows: seq<R>, name: R -> string) {
    forall i, j :: 0 <= i < j < |rows| ==> NameLe(name(rows[i]), name(rows[j]))
  }

  /** `k` is a key of `pending` whose row has the least name. */
  predicate IsLeast<R>(k: string, pending: set<string>, table: map<string, R>, name: R -> string)
    requires pending <= table.Keys
  {
    k in pending && forall j :: j in pending ==> NameLe(name(table[k]), name(table[j]))
  }

  /** A non-empty set of rows has one with the least name. */
  lemma {:induction false} LeastExists<R>(pending: set<string>, table: map<string, R>, name: R -> string)
    requires pending != {} && pending <= table.Keys
    ensures exists k :: IsLeast(k, pending, table, name)
    decreases |pending|
  {
    var y :| y in pending;
    var rest := pending - {y};
    if rest == {} {
      NameLeReflexive(name(table[y]));
      assert pending == {y};
      assert IsLeast(y, pending, table, name);
    } else {
      LeastExists(rest, table, name);
      var m :| IsLeast(m, rest, table, name);
      NameLeTotal(name(table[y]), name(table[m]));
      if NameLe(name(table[y]), name(table[m])) {
        forall j | j in pending ensures NameLe(name(table[y]), name(table[j])) {
          if j == y {
            NameLeReflexive(name(table[y]));
          } else {
            NameLeTransitive(name(table[y]), name(table[m]), name(table[j]));
          }
        }
        assert IsLeast(y, pending, table, name);
      } else {
        assert IsLeast(m, pending, table, name);
      }
    }
  }

  /** The loop state of `Select`: `rows` holds the keys in `done`, in order, each below every pending row. */
  ghost predicate SelectInvariant<R>(rows: seq<R>, done: set<string>, pending: set<string>,
                                     table: map<string, R>, key: R -> string, name: R -> string)
  {
    && pending <= table.Keys && done == table.Keys - pending
    && |rows| == |done|
    && (forall i :: 0 <= i < |rows| ==> key(rows[i]) in done && table[key(rows[i])] == rows[i])
    && (forall k :: k in done ==> table[k] in rows)
    && (forall i, j :: 0 <= i < j < |rows| ==> key(rows[i]) != key(rows[j]))
    && OrderedBy(rows, name)
    && (forall i, k :: 0 <= i < |rows| && k in pending ==> NameLe(name(rows[i]), name(table[k])))
  }

  /** Taking the least pending row keeps the listing half of `Select`'s loop state. */
  lemma SelectStepLists<R>(rows: seq<R>, done: set<string>, pending: set<string>, k: string,
                           table: map<string, R>, key: R -> string, name: R -> string)
    requires Keyed(table, key)
    requires SelectInvariant(rows, done, pending, table, key, name)
    requires k in pending
    ensures var rows', done' := rows + [table[k]], done + {k};
            && |rows'| == |done'|
            && (forall i :: 0 <= i < |rows'| ==> key(rows'[i]) in done' && table[key(rows'[i])] == rows'[i])
            && (forall j :: j in done' ==> table[j] in rows')
            && (forall i, j :: 0 <= i < j < |rows'| ==> key(rows'[i]) != key(rows'[j]))
  {
    var rows', done' := rows + [table[k]], done + {k};
    assert k !in done;
    assert |done'| == |done| + 1;
    forall i | 0 <= i < |rows'|
      ensures key(rows'[i]) in done' && table[key(rows'[i])] == rows'[i]
    {
      if i < |rows| { assert rows'[i] == rows[i]; }
    }
    forall j | j in done' ensures table[j] in rows' {
      if j != k { assert table[j] in rows; }
      else { assert rows'[|rows|] == table[k]; }
    }
    forall i, j | 0 <= i < j < |rows'| ensures key(rows'[i]) != key(rows'[j]) {
      if j < |rows| { assert rows'[i] == rows[i] && rows'[j] == rows[j]; }
      else { assert rows'[i] == rows[i] && key(rows'[j]) == k; }
    }
  }

  /** Taking the least pending row keeps the ordering half of `Select`'s loop state. */
  lemma SelectStepOrder<R>(rows: seq<R>, done: set<string>, pending: set<string>, k: string,
                           table: map<string, R>, key: R -> string, name: R -> string)
    requires SelectInvariant(rows, done, pending, table, key, name)
    requires IsLeast(k, pending, table, name)
    ensures var rows', pending' := rows + [table[k]], pending - {k};
            && OrderedBy(rows', name)
            && (forall i, j :: 0 <= i < |rows'| && j in pending' ==> NameLe(name(rows'[i]), name(table[j])))
  {
    var rows', pending' := rows + [table[k]], pending - {k};
    forall i, j | 0 <= i < j < |rows'| ensures NameLe(name(rows'[i]), name(rows'[j])) {
      if j < |rows| { assert rows'[i] == rows[i] && rows'[j] == rows[j]; }
      else { assert rows'[i] == rows[i] && rows'[j] == table[k]; }
    }
    forall i, j | 0 <= i < |rows'| && j in pending' ensures NameLe(name(rows'[i]), name(table[j])) {
      if i < |rows| { assert rows'[i] == rows[i]; }
    }
  }

  /** Taking the least pending row keeps the loop state of `Select`. */
  lemma SelectStep<R>(rows: seq<R>, done: set<string>, pending: set<string>, k: string,
                      table: map<string, R>, key: R -> string, name: R -> string)
    requires Keyed(table, key)
    requires SelectInvariant(rows, done, pending, table, key, name)
    requires IsLeast(k, pending, table, name)
    ensures SelectInvariant(rows + [table[k]], done + {k}, pending - {k}, table, key, name)
  {
    SelectStepLists(rows, done, pending, k, table, key, name);
    SelectStepOrder(rows, done, pending, k, table, key, name);
  }

  /**
   * The engine's answer to `SELECT * ... ORDER BY nama` over `table` (the
   * rows a `WHERE` clause kept): each row once, ordered by name.
   */
  method Select<R>(table: map<string, R>, key: R -> string, name: R -> string) returns (rows: seq<R>)
    requires Keyed(table, key)
    ensures Lists(rows, table, key)
    ensures OrderedBy(rows, name)
    ensures |rows| == |table|
  {
    var pending := table.Keys;
    ghost var done: set<string> := {};
    rows := [];
    while pending != {}
      invariant SelectInvariant(rows, done, pending, table, key, name)
      decreases |pending|
    {
      LeastExists(pending, table, name);
      var k :| k in pending && IsLeast(k, pending, table, name);
      SelectStep(rows, done, pending, k, table, key, name);
      rows := rows + [table[k]];
      pending := pending - {k};
      done := done + {k};
    }
    assert done == table.Keys;
  }
}
