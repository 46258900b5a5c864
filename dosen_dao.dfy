/** The lecturer repository, `akademik.dao.DosenDAOImpl` (contract in `DosenDAO`). */
module DosenDao {
  import opened Wrappers
  import opened Text
  import opened DosenModel
  import opened Store
  import opened Failures

  /** The key and the name of a row, as the query engine reads them. */
  function KeyOf(r: DosenRecord): string {
    r.npp.GetOr("")
  }

  function NameOf(r: DosenRecord): string {
    r.nama.GetOr("")
  }

  /** The `nama` column of a row, NULL included. */
  function Nama(r: DosenRecord): Option<string> {
    r.nama
  }


  /** A result list: one object per row of `table`, ordered by name. */
  ghost predicate Listed(list: seq<Dosen>, table: map<string, DosenRecord>)
    reads list
  {
    Lists(Values(list), table, KeyOf) && OrderedBy(Values(list), NameOf)
  }

  class DosenDaoImpl {
    /** The shared connection's database. */
    const db: Database

    constructor (db: Database)
      ensures this.db == db
    {
      this.db := db;
    }

    /** `save(dosen)`: validate, refuse a present key, insert. */
    method Save(d: Dosen?) returns (r: Outcome)
      requires db.Valid()
      modifies db
      ensures db.Valid() && db.mahasiswa == old(db.mahasiswa)
      ensures d == null || !d.Value().IsValid() ==> r == Failed(Invalid(InvalidMessage("dosen")))
      ensures d != null && d.Value().IsValid() && d.npp.value in old(db.dosen) ==>
                r == Failed(Duplicate(DuplicateMessage("NPP", d.npp.value)))
      ensures d != null && d.Value().IsValid() && d.npp.value !in old(db.dosen) ==> r == Success
      ensures db.dosen == if r.Success? then old(db.dosen)[d.npp.value := d.Value()] else old(db.dosen)
      ensures |db.dosen| == |old(db.dosen)| + if r.Success? then 1 else 0
      ensures RecordsValid(old(db.dosen), old(db.mahasiswa)) ==> RecordsValid(db.dosen, db.mahasiswa)
    {
      if d == null || !d.Value().IsValid() {
        return Failed(Invalid(InvalidMessage("dosen")));
      }
      var present := ExistsByNpp(d.npp);
      if present {
        return Failed(Duplicate(DuplicateMessage("NPP", d.npp.value)));
      }
      var res := db.InsertDosen(d.Value());
      r := InsertReport(res, "dosen");
    }

    /** `update(dosen)`: validate, then overwrite `nama` and `no_hp` of the row with that key. */
    method Update(d: Dosen?) returns (r: Outcome)
      requires db.Valid()
      modifies db
      ensures db.Valid() && db.mahasiswa == old(db.mahasiswa)
      ensures d == null || !d.Value().IsValid() ==> r == Failed(Invalid(InvalidMessage("dosen")))
      ensures d != null && d.Value().IsValid() && d.npp.value !in old(db.dosen) ==>
                r == Failed(NotFound(NotFoundMessage("dosen", "NPP", d.npp.value)))
      ensures d != null && d.Value().IsValid() && d.npp.value in old(db.dosen) ==> r == Success
      ensures db.dosen == if r.Success? then old(db.dosen)[d.npp.value := d.Value()] else old(db.dosen)
      ensures RecordsValid(old(db.dosen), old(db.mahasiswa)) ==> RecordsValid(db.dosen, db.mahasiswa)
    {
      if d == null || !d.Value().IsValid() {
        return Failed(Invalid(InvalidMessage("dosen")));
      }
      var res := db.UpdateDosen(d.npp, d.nama, d.noHp);
      r := ChangeReport(res, "updating", "dosen", "NPP", Show(d.npp));
    }

    /** `delete(npp)`: refuse a blank key, remove the row; the store clears the advisor of its students. */
    method Delete(npp: Option<string>) returns (r: Outcome)
      requires db.Valid()
      modifies db
      ensures db.Valid()
      ensures IsBlank(npp) ==> r == Failed(Invalid(BlankKeyMessage("NPP")))
      ensures !IsBlank(npp) && npp.value !in old(db.dosen) ==>
                r == Failed(NotFound(NotFoundMessage("dosen", "NPP", npp.value)))
      ensures !IsBlank(npp) && npp.value in old(db.dosen) ==> r == Success
      ensures db.dosen == if r.Success? then old(db.dosen) - {npp.value} else old(db.dosen)
      ensures |db.dosen| == |old(db.dosen)| - if r.Success? then 1 else 0
      ensures db.mahasiswa == if r.Success? then ClearDosenWali(old(db.mahasiswa), npp.value)
                              else old(db.mahasiswa)
      ensures RecordsValid(old(db.dosen), old(db.mahasiswa)) ==> RecordsValid(db.dosen, db.mahasiswa)
    {
      if IsBlank(npp) {
        return Failed(Invalid(BlankKeyMessage("NPP")));
      }
      var res := db.DeleteDosen(npp);
      r := ChangeReport(res, "deleting", "dosen", "NPP", npp.value);
      if r.Success? {
        assert old(db.dosen).Keys == db.dosen.Keys + {npp.value};
        if RecordsValid(old(db.dosen), old(db.mahasiswa)) {
          DeleteKeepsRecordsValid(old(db.dosen), old(db.mahasiswa), npp.value);
        }
      }
    }

    /** `findByNpp(npp)`: the lecturer with that key, null for a blank or absent key. */
    method FindByNpp(npp: Option<string>) returns (d: Dosen?)
      requires db.Valid()
      ensures d == null <==> IsBlank(npp) || npp.value !in db.dosen
      ensures d != null ==> fresh(d)
      ensures d != null ==> d.Value() == db.dosen[npp.value]
    {
      if IsBlank(npp) {
        return null;
      }
      if npp.value in db.dosen {
        var row := db.dosen[npp.value];
        d := new Dosen(row.npp, row.nama, row.noHp);
      } else {
        d := null;
      }
    }

    /** `mapResultSetToDosen` over a whole result set: one new object per row, in order. */
    method MapRows(rows: seq<DosenRecord>) returns (list: seq<Dosen>)
      ensures Values(list) == rows
      ensures forall j :: 0 <= j < |list| ==> fresh(list[j])
      ensures forall i, j :: 0 <= i < j < |list| ==> list[i] != list[j]
    {
      list := [];
      var i := 0;
      while i < |rows|
        invariant 0 <= i <= |rows| && |list| == i
        invariant forall j :: 0 <= j < i ==> list[j].Value() == rows[j]
        invariant forall j :: 0 <= j < i ==> fresh(list[j])
        invariant forall j, k :: 0 <= j < k < i ==> list[j] != list[k]
      {
        var d := new Dosen(rows[i].npp, rows[i].nama, rows[i].noHp);
        list := list + [d];
        i := i + 1;
      }
    }

    /** `findAll()`: every lecturer once, ordered by name. */
    method FindAll() returns (list: seq<Dosen>)
      requires db.Valid()
      ensures forall j :: 0 <= j < |list| ==> fresh(list[j])
      ensures Listed(list, db.dosen)
      ensures |list| == |db.dosen|
    {
      var rows := Select(db.dosen, KeyOf, NameOf);
      list := MapRows(rows);
    }

    /** `findByNama(nama)`: empty for a blank keyword, else the lecturers whose name contains it, by name. */
    method FindByNama(nama: Option<string>) returns (list: seq<Dosen>)
      requires db.Valid()
      ensures forall j :: 0 <= j < |list| ==> fresh(list[j])
      ensures IsBlank(nama) ==> list == []
      ensures !IsBlank(nama) ==> Listed(list, NameLike(db.dosen, Nama, nama.value))
    {
      if IsBlank(nama) {
        return [];
      }
      var rows := Select(NameLike(db.dosen, Nama, nama.value), KeyOf, NameOf);
      list := MapRows(rows);
    }

    /** `existsByNpp(npp)`: false for a blank key, else whether a row has that key. */
    method ExistsByNpp(npp: Option<string>) returns (b: bool)
      ensures b <==> !IsBlank(npp) && npp.value in db.dosen
    {
      if IsBlank(npp) {
        return false;
      }
      b := npp.value in db.dosen;
    }

    /** `existsByNpp(k)` and `FindByNpp(k) != null` agree on every key, and a found object carries that key. */
    method ExistsAgreesWithFind(npp: Option<string>) returns (b: bool, found: Dosen?)
      requires db.Valid()
      ensures b <==> found != null
      ensures found != null ==> found.npp == npp
    {
      b := ExistsByNpp(npp);
      found := FindByNpp(npp);
    }

    /** `save` followed by `FindByNpp`: after a successful save the same fields come back. */
    method SaveThenFind(d: Dosen) returns (r: Outcome, found: Dosen?)
      requires db.Valid()
      modifies db
      ensures r.Success? <==> d.Value().IsValid() && d.npp.value !in old(db.dosen)
      ensures r.Success? ==> found != null && found.Value() == d.Value() && |db.dosen| == |old(db.dosen)| + 1
      ensures r.Failed? ==> db.dosen == old(db.dosen)
    {
      r := Save(d);
      found := FindByNpp(d.npp);
    }

    /** `count()`: the number of rows. */
    method Count() returns (n: int)
      ensures n == |db.dosen|
    {
      n := |db.dosen|;
    }
  }
}
