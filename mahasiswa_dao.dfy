/** The student repository, `akademik.dao.MahasiswaDAOImpl` (contract in `MahasiswaDAO`). */
module MahasiswaDao {
  import opened Wrappers
  import opened Text
  import DosenModel
  import opened MahasiswaModel
  import opened Store
  import opened Failures

  /** The key and the name of a row, as the query engine reads them. */
  function KeyOf(r: MahasiswaRecord): string {
    r.nim.GetOr("")
  }

  function NameOf(r: MahasiswaRecord): string {
    r.nama.GetOr("")
  }

  /** The `nama` column of a row, NULL included. */
  function Nama(r: MahasiswaRecord): Option<string> {
    r.nama
  }

  /** The advisor column names a lecturer the table does not hold: the foreign key refuses the row. */
  predicate Dangling(dosen: map<string, DosenModel.DosenRecord>, r: MahasiswaRecord) {
    r.dosenWali.Some? && r.dosenWali.value !in dosen
  }

  /** A record that passes `isValid()` can only break the foreign key, and breaks it exactly when it dangles. */
  lemma ValidViolatesOnlyForeignKey(dosen: map<string, DosenModel.DosenRecord>, r: MahasiswaRecord)
    requires r.IsValid()
    ensures MahasiswaViolation(dosen, r) == if Dangling(dosen, r) then Some(ForeignKey) else None
  {
    IsValidIff(r);
    BlankIff(r.nim);
    BlankIff(r.nama);
  }

  /** The rows `WHERE dosen_wali = ?` keeps. */
  function AdvisedBy(table: map<string, MahasiswaRecord>, npp: string): map<string, MahasiswaRecord>
  {
    map k | k in table && table[k].dosenWali == Some(npp) :: table[k]
  }

  /** The rows `WHERE gender = ?` keeps. */
  function WithGender(table: map<string, MahasiswaRecord>, gender: string): map<string, MahasiswaRecord>
  {
    map k | k in table && table[k].gender == Some(gender) :: table[k]
  }


  /** After `ON DELETE SET NULL` nobody is advised by the deleted lecturer, and every other lecturer keeps exactly their students. */
  lemma CascadeEmptiesAdvisees(mahasiswa: map<string, MahasiswaRecord>, npp: string, other: string)
    ensures AdvisedBy(ClearDosenWali(mahasiswa, npp), npp) == map[]
    ensures other != npp ==> AdvisedBy(ClearDosenWali(mahasiswa, npp), other) == AdvisedBy(mahasiswa, other)
  {
    var cleared := ClearDosenWali(mahasiswa, npp);
    assert AdvisedBy(cleared, npp).Keys == {};
    if other != npp {
      assert AdvisedBy(cleared, other).Keys == AdvisedBy(mahasiswa, other).Keys;
    }
  }

  /** Under the CHECK constraint, `findByGender` with the two constants splits the table: every student is in exactly one. */
  lemma GenderPartition(table: map<string, MahasiswaRecord>)
    requires forall k :: k in table ==> ColumnViolation(table[k]).None?
    ensures WithGender(table, GenderLaki).Keys !! WithGender(table, GenderPerempuan).Keys
    ensures WithGender(table, GenderLaki).Keys + WithGender(table, GenderPerempuan).Keys == table.Keys
  {
  }

  /** A result list: one object per row of `table`, ordered by name. */
  ghost predicate Listed(list: seq<Mahasiswa>, table: map<string, MahasiswaRecord>)
    reads list
  {
    Lists(Values(list), table, KeyOf) && OrderedBy(Values(list), NameOf)
  }

  class MahasiswaDaoImpl {
    /** The shared connection's database. */
    const db: Database

    constructor (db: Database)
      ensures this.db == db
    {
      this.db := db;
    }

    /** `save(mahasiswa)`: validate, refuse a present key, insert; a dangling advisor fails in the engine. */
    method Save(m: Mahasiswa?) returns (r: Outcome)
      requires db.Valid()
      modifies db
      ensures db.Valid() && db.dosen == old(db.dosen)
      ensures m == null || !m.Value().IsValid() ==> r == Failed(Invalid(InvalidMessage("mahasiswa")))
      ensures m != null && m.Value().IsValid() && m.nim.value in old(db.mahasiswa) ==>
                r == Failed(Duplicate(DuplicateMessage("NIM", m.nim.value)))
      ensures m != null && m.Value().IsValid() && m.nim.value !in old(db.mahasiswa) ==>
                r == if Dangling(old(db.dosen), m.Value())
                     then Failed(Storage(StorageMessage("saving", "mahasiswa", ForeignKey)))
                     else Success
      ensures db.mahasiswa == if r.Success? then old(db.mahasiswa)[m.nim.value := m.Value()] else old(db.mahasiswa)
      ensures |db.mahasiswa| == |old(db.mahasiswa)| + if r.Success? then 1 else 0
      ensures RecordsValid(old(db.dosen), old(db.mahasiswa)) ==> RecordsValid(db.dosen, db.mahasiswa)
    {
      if m == null || !m.Value().IsValid() {
        return Failed(Invalid(InvalidMessage("mahasiswa")));
      }
      var present := ExistsByNim(m.nim);
      if present {
        return Failed(Duplicate(DuplicateMessage("NIM", m.nim.value)));
      }
      ValidViolatesOnlyForeignKey(db.dosen, m.Value());
      var res := db.InsertMahasiswa(m.Value());
      r := InsertReport(res, "mahasiswa");
    }

    /** `update(mahasiswa)`: validate, then overwrite every column but the key of the row with that key. */
    method Update(m: Mahasiswa?) returns (r: Outcome)
      requires db.Valid()
      modifies db
      ensures db.Valid() && db.dosen == old(db.dosen)
      ensures m == null || !m.Value().IsValid() ==> r == Failed(Invalid(InvalidMessage("mahasiswa")))
      ensures m != null && m.Value().IsValid() && m.nim.value !in old(db.mahasiswa) ==>
                r == Failed(NotFound(NotFoundMessage("mahasiswa", "NIM", m.nim.value)))
      ensures m != null && m.Value().IsValid() && m.nim.value in old(db.mahasiswa) ==>
                r == if Dangling(old(db.dosen), m.Value())
                     then Failed(Storage(StorageMessage("updating", "mahasiswa", ForeignKey)))
                     else Success
      ensures db.mahasiswa == if r.Success? then old(db.mahasiswa)[m.nim.value := m.Value()] else old(db.mahasiswa)
      ensures RecordsValid(old(db.dosen), old(db.mahasiswa)) ==> RecordsValid(db.dosen, db.mahasiswa)
    {
      if m == null || !m.Value().IsValid() {
        return Failed(Invalid(InvalidMessage("mahasiswa")));
      }
      ValidViolatesOnlyForeignKey(db.dosen, m.Value());
      var res := db.UpdateMahasiswa(m.nim, m.nama, m.gender, m.ipk, m.dosenWali);
      r := ChangeReport(res, "updating", "mahasiswa", "NIM", Show(m.nim));
    }

    /** `delete(nim)`: refuse a blank key, remove the row. */
    method Delete(nim: Option<string>) returns (r: Outcome)
      requires db.Valid()
      modifies db
      ensures db.Valid() && db.dosen == old(db.dosen)
      ensures IsBlank(nim) ==> r == Failed(Invalid(BlankKeyMessage("NIM")))
      ensures !IsBlank(nim) && nim.value !in old(db.mahasiswa) ==>
                r == Failed(NotFound(NotFoundMessage("mahasiswa", "NIM", nim.value)))
      ensures !IsBlank(nim) && nim.value in old(db.mahasiswa) ==> r == Success
      ensures db.mahasiswa == if r.Success? then old(db.mahasiswa) - {nim.value} else old(db.mahasiswa)
      ensures |db.mahasiswa| == |old(db.mahasiswa)| - if r.Success? then 1 else 0
      ensures RecordsValid(old(db.dosen), old(db.mahasiswa)) ==> RecordsValid(db.dosen, db.mahasiswa)
    {
      if IsBlank(nim) {
        return Failed(Invalid(BlankKeyMessage("NIM")));
      }
      var res := db.DeleteMahasiswa(nim);
      r := ChangeReport(res, "deleting", "mahasiswa", "NIM", nim.value);
    }

    /** `findByNim(nim)`: the student with that key, null for a blank or absent key. */
    method FindByNim(nim: Option<string>) returns (m: Mahasiswa?)
      requires db.Valid()
      ensures m == null <==> IsBlank(nim) || nim.value !in db.mahasiswa
      ensures m != null ==> fresh(m)
      ensures m != null ==> m.Value() == db.mahasiswa[nim.value]
    {
      if IsBlank(nim) {
        return null;
      }
      if nim.value in db.mahasiswa {
        var row := db.mahasiswa[nim.value];
        m := new Mahasiswa(row.nim, row.nama, row.gender, row.ipk, row.dosenWali);
      } else {
        m := null;
      }
    }

    /** `mapResultSetToMahasiswa` over a whole result set: one new object per row, in order. */
    method MapRows(rows: seq<MahasiswaRecord>) returns (list: seq<Mahasiswa>)
      ensures Values(list) == rows
      ensures forall j :: 0 <= j < |list| ==> fresh(list[j])
      ensures forall i, j :: 0 <= i < j < |list| ==> list[i] != list[j]
    {
      list := [];
      var i := 0;
      while i < |rows|
        invariant 0 <= i <= |rows| && |list| == i
        invariant forall j :: 0 <= j < i ==> list[j].Value() == rows[j]
        invariant forall j :: 0 <= j < i ==> fresh(list[j])
        invariant forall j, k :: 0 <= j < k < i ==> list[j] != list[k]
      {
        var m := new Mahasiswa(rows[i].nim, rows[i].nama, rows[i].gender, rows[i].ipk, rows[i].dosenWali);
        list := list + [m];
        i := i + 1;
      }
    }

    /** `findAll()`: every student once, ordered by name. */
    method FindAll() returns (list: seq<Mahasiswa>)
      requires db.Valid()
      ensures forall j :: 0 <= j < |list| ==> fresh(list[j])
      ensures Listed(list, db.mahasiswa)
      ensures |list| == |db.mahasiswa|
    {
      var rows := Select(db.mahasiswa, KeyOf, NameOf);
      list := MapRows(rows);
    }

    /** `findByDosenWali(npp)`: empty for a blank key, else the students advised by exactly `npp`, by name. */
    method FindByDosenWali(npp: Option<string>) returns (list: seq<Mahasiswa>)
      requires db.Valid()
      ensures forall j :: 0 <= j < |list| ==> fresh(list[j])
      ensures IsBlank(npp) ==> list == []
      ensures !IsBlank(npp) ==> Listed(list, AdvisedBy(db.mahasiswa, npp.value))
    {
      if IsBlank(npp) {
        return [];
      }
      var rows := Select(AdvisedBy(db.mahasiswa, npp.value), KeyOf, NameOf);
      list := MapRows(rows);
    }

    /** `findByGender(gender)`: empty for a blank value, else the students of exactly that gender, by name. */
    method FindByGender(gender: Option<string>) returns (list: seq<Mahasiswa>)
      requires db.Valid()
      ensures forall j :: 0 <= j < |list| ==> fresh(list[j])
      ensures IsBlank(gender) ==> list == []
      ensures !IsBlank(gender) ==> Listed(list, WithGender(db.mahasiswa, gender.value))
    {
      if IsBlank(gender) {
        return [];
      }
      var rows := Select(WithGender(db.mahasiswa, gender.value), KeyOf, NameOf);
      list := MapRows(rows);
    }

    /** `findByNama(nama)`: empty for a blank keyword, else the students whose name contains it, by name. */
    method FindByNama(nama: Option<string>) returns (list: seq<Mahasiswa>)
      requires db.Valid()
      ensures forall j :: 0 <= j < |list| ==> fresh(list[j])
      ensures IsBlank(nama) ==> list == []
      ensures !IsBlank(nama) ==> Listed(list, NameLike(db.mahasiswa, Nama, nama.value))
    {
      if IsBlank(nama) {
        return [];
      }
      var rows := Select(NameLike(db.mahasiswa, Nama, nama.value), KeyOf, NameOf);
      list := MapRows(rows);
    }

    /** `existsByNim(nim)`: false for a blank key, else whether a row has that key. */
    method ExistsByNim(nim: Option<string>) returns (b: bool)
      ensures b <==> !IsBlank(nim) && nim.value in db.mahasiswa
    {
      if IsBlank(nim) {
        return false;
      }
      b := nim.value in db.mahasiswa;
    }

    /** `existsByNim(k)` and `FindByNim(k) != null` agree on every key, and a found object carries that key. */
    method ExistsAgreesWithFind(nim: Option<string>) returns (b: bool, found: Mahasiswa?)
      requires db.Valid()
      ensures b <==> found != null
      ensures found != null ==> found.nim == nim
    {
      b := ExistsByNim(nim);
      found := FindByNim(nim);
    }

    /** `save` followed by `FindByNim`: after a successful save the same fields come back. */
    method SaveThenFind(m: Mahasiswa) returns (r: Outcome, found: Mahasiswa?)
      requires db.Valid()
      modifies db
      ensures r.Success? <==> m.Value().IsValid() && m.nim.value !in old(db.mahasiswa) && !Dangling(old(db.dosen), m.Value())
      ensures r.Success? ==> found != null && found.Value() == m.Value() && |db.mahasiswa| == |old(db.mahasiswa)| + 1
      ensures r.Failed? ==> db.mahasiswa == old(db.mahasiswa)
    {
      r := Save(m);
      found := FindByNim(m.nim);
    }

    /** `count()`: the number of rows. */
    method Count() returns (n: int)
      ensures n == |db.mahasiswa|
    {
      n := |db.mahasiswa|;
    }
  }
}
