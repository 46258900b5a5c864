/**
 * The student screen's view-model, `akademik.viewmodel.MahasiswaViewModel`.
 * As for the lecturer screen: properties are fields, the bound flags are
 * predicates, and the change listeners run inside the field setters, only
 * on a real change and in registration order (clear the status first, then
 * the NIM length check or the IPK range check).  `dosenWali` has no listener.
 */
module MahasiswaVm {
  import opened Wrappers
  import opened Text
  import DosenModel
  import opened MahasiswaModel
  import opened Store
  import opened Failures
  import DosenDao
  import opened MahasiswaDao
  import opened UiStatus

  /** The form fields and the selection. */
  datatype Form = Form(nim: string, nama: string, gender: string, ipk: real, dosenWali: string,
                       selected: Mahasiswa?, editing: bool)

  /** What `clearForm()` leaves. */
  const EmptyForm: Form := Form("", "", "", 0.0, "", null, false)

  /**
   * The advisor field as a column: only the empty string becomes null; nothing is trimmed.
   * `selectMahasiswa` turns null back into "", so the field survives the round trip.
   */
  function AdvisorColumn(s: string): (r: Option<string>)
    ensures r.GetOr("") == s
    ensures r != Some("")
  {
    if s == "" then None else Some(s)
  }

  /** The record `saveCommand` builds from the form: key and name trimmed, gender and advisor as typed. */
  function NewMahasiswa(nim: string, nama: string, gender: string, ipk: real, dosenWali: string): MahasiswaRecord {
    MahasiswaRecord(Some(Trim(nim)), Some(Trim(nama)), Some(gender), ipk, AdvisorColumn(dosenWali))
  }

  /** What `updateCommand` writes into the selected object before handing it to the repository. */
  function Edited(r: MahasiswaRecord, nama: string, gender: string, ipk: real, dosenWali: string): MahasiswaRecord {
    r.(nama := Some(Trim(nama)), gender := Some(gender), ipk := ipk, dosenWali := AdvisorColumn(dosenWali))
  }

  /** `validateInput()`: the first complaint, in the order the checks run, or none. */
  function ValidationError(nim: string, nama: string, gender: string, ipk: real): (e: Option<string>)
    ensures e == Some("NIM tidak boleh kosong") <==> AllWhite(nim)
    ensures e == Some("Nama tidak boleh kosong") <==> !AllWhite(nim) && AllWhite(nama)
    ensures e == Some("Gender harus dipilih") <==> !AllWhite(nim) && !AllWhite(nama) && AllWhite(gender)
    ensures e == Some("IPK harus antara 0.0 - 4.0") <==>
              !AllWhite(nim) && !AllWhite(nama) && !AllWhite(gender) && !(0.0 < ipk <= 4.0)
    ensures e == Some("NIM minimal 6 karakter") <==>
              !AllWhite(nim) && !AllWhite(nama) && !AllWhite(gender) && 0.0 < ipk <= 4.0 && |Trim(nim)| < 6
    ensures e.None? <==>
              !AllWhite(nim) && !AllWhite(nama) && !AllWhite(gender) && 0.0 < ipk <= 4.0 && |Trim(nim)| >= 6
  {
    TrimEmptyIff(nim);
    TrimEmptyIff(nama);
    TrimEmptyIff(gender);
    if Trim(nim) == [] then Some("NIM tidak boleh kosong")
    else if Trim(nama) == [] then Some("Nama tidak boleh kosong")
    else if Trim(gender) == [] then Some("Gender harus dipilih")
    else if ipk <= 0.0 || ipk > 4.0 then Some("IPK harus antara 0.0 - 4.0")
    else if |Trim(nim)| < 6 then Some("NIM minimal 6 karakter")
    else None
  }

  /**
   * A form that passes `validateInput()` builds a record the repository
   * accepts exactly when the gender is one of the two constants: any other
   * non-blank gender gets past the screen and is refused by `isValid()`.
   */
  lemma ValidatedRecordIsValidIff(nim: string, nama: string, gender: string, ipk: real, dosenWali: string)
    requires ValidationError(nim, nama, gender, ipk).None?
    ensures NewMahasiswa(nim, nama, gender, ipk, dosenWali).IsValid() <==> gender == GenderLaki || gender == GenderPerempuan
    ensures NewMahasiswa(nim, nama, gender, ipk, dosenWali).nim.value == Trim(nim) && |Trim(nim)| >= 6
  {
    TrimEmptyIff(nim);
    TrimEmptyIff(nama);
    TrimIdempotent(nim);
    TrimIdempotent(nama);
    IsValidIff(NewMahasiswa(nim, nama, gender, ipk, dosenWali));
  }

  /** An IPK of exactly 0.0 never gets past `validateInput()`, although a record with it passes `isValid()`. */
  lemma ZeroIpkNeverSaved(nim: string, nama: string, gender: string, dosenWali: string)
    ensures ValidationError(nim, nama, gender, 0.0).Some?
    ensures !AllWhite(nim) && !AllWhite(nama) && !AllWhite(gender) ==>
              ValidationError(nim, nama, gender, 0.0) == Some("IPK harus antara 0.0 - 4.0")
    ensures NewMahasiswa(nim, nama, gender, 0.0, dosenWali).IsValidIpk()
  {
  }

  /** The NIM listener's length check: non-blank and shorter than six characters. */
  predicate NimTooShort(v: string) {
    Trim(v) != [] && |v| < 6
  }

  /** The IPK listener's range check. */
  predicate IpkOutOfRange(v: real) {
    v < 0.0 || v > 4.0
  }

  /** The status after the NIM field goes from `was` to `v`. */
  function NimEdited(s: Status, was: string, v: string): Status {
    if v == was then s
    else if NimTooShort(v) then Errored("NIM minimal 6 karakter")
    else s.Cleared()
  }

  /** The status after the IPK field goes from `was` to `v`. */
  function IpkEdited(s: Status, was: real, v: real): Status {
    if v == was then s
    else if IpkOutOfRange(v) then Errored("IPK harus antara 0.0 - 4.0")
    else s.Cleared()
  }

  class MahasiswaViewModel {
    /** The shared database, and the two repositories over it. */
    const db: Database
    const mahasiswaDao: MahasiswaDaoImpl
    const dosenDao: DosenDao.DosenDaoImpl
    var mahasiswaList: seq<Mahasiswa>
    var dosenList: seq<DosenModel.Dosen>
    var nim: string
    var nama: string
    var gender: string
    var ipk: real
    var dosenWali: string
    var selected: Mahasiswa?
    var isEditing: bool
    var isLoading: bool
    var statusMessage: string
    var hasError: bool

    ghost predicate Valid()
      reads db
    {
      db.Valid() && mahasiswaDao.db == db && dosenDao.db == db
    }

    function FormValue(): Form
      reads this
    {
      Form(nim, nama, gender, ipk, dosenWali, selected, isEditing)
    }

    function StatusValue(): Status
      reads this
    {
      Status(isLoading, hasError, statusMessage)
    }

    /** Nothing else changed: the form, both lists and both tables are as before. */
    twostate predicate Untouched()
      reads this, db
    {
      && FormValue() == old(FormValue()) && mahasiswaList == old(mahasiswaList) && dosenList == old(dosenList)
      && db.dosen == old(db.dosen) && db.mahasiswa == old(db.mahasiswa)
    }

    /** `canSave`: not editing, `nim`, `nama`, `gender` non-empty (untrimmed), `0 < ipk <= 4`, not loading. */
    predicate CanSave()
      reads this
    {
      !isEditing && nim != "" && nama != "" && gender != "" && 0.0 < ipk <= 4.0 && !isLoading
    }

    /** `canUpdate`: editing a selected student, `nama` and `gender` non-empty, `0 < ipk <= 4`, not loading. */
    predicate CanUpdate()
      reads this
    {
      isEditing && selected != null && nama != "" && gender != "" && 0.0 < ipk <= 4.0 && !isLoading
    }

    /** `canDelete`: a student is selected, not loading. */
    predicate CanDelete()
      reads this
    {
      selected != null && !isLoading
    }

    /** The constructor: empty form, then `loadAllData()`, whose "Loading..." stays as the message. */
    constructor (db: Database)
      requires db.Valid()
      ensures this.db == db && Valid()
      ensures FormValue() == EmptyForm
      ensures StatusValue() == Status(false, false, "Loading...")
      ensures Listed(mahasiswaList, db.mahasiswa) && DosenDao.Listed(dosenList, db.dosen)
    {
      this.db := db;
      mahasiswaDao := new MahasiswaDaoImpl(db);
      dosenDao := new DosenDao.DosenDaoImpl(db);
      mahasiswaList, dosenList := [], [];
      nim, nama, gender, ipk, dosenWali := "", "", "", 0.0, "";
      selected := null;
      isEditing, isLoading, statusMessage, hasError := false, false, "", false;
      new;
      LoadAllData();
    }

    method SetLoading(on: bool)
      modifies this
      ensures StatusValue() == old(StatusValue()).Loading(on)
      ensures FormValue() == old(FormValue()) && mahasiswaList == old(mahasiswaList) && dosenList == old(dosenList)
    {
      isLoading := on;
      if on {
        statusMessage := "Loading...";
        hasError := false;
      }
    }

    method SetError(message: string)
      modifies this
      ensures StatusValue() == Errored(message)
      ensures FormValue() == old(FormValue()) && mahasiswaList == old(mahasiswaList) && dosenList == old(dosenList)
    {
      statusMessage := message;
      hasError := true;
      isLoading := false;
    }

    method SetSuccess(message: string)
      modifies this
      ensures StatusValue() == Succeeded(message)
      ensures FormValue() == old(FormValue()) && mahasiswaList == old(mahasiswaList) && dosenList == old(dosenList)
    {
      statusMessage := message;
      hasError := false;
      isLoading := false;
    }

    method ClearError()
      modifies this
      ensures StatusValue() == old(StatusValue()).Cleared()
      ensures FormValue() == old(FormValue()) && mahasiswaList == old(mahasiswaList) && dosenList == old(dosenList)
    {
      hasError := false;
      if !isLoading {
        statusMessage := "";
      }
    }

    /** `nim.set(v)` with its two listeners. */
    method SetNim(v: string)
      modifies this
      ensures FormValue() == old(FormValue()).(nim := v)
      ensures mahasiswaList == old(mahasiswaList) && dosenList == old(dosenList)
      ensures StatusValue() == NimEdited(old(StatusValue()), old(nim), v)
    {
      if v != nim {
        nim := v;
        ClearError();
        if Trim(v) != [] && |v| < 6 {
          SetError("NIM minimal 6 karakter");
        }
      }
    }

    /** `nama.set(v)` with its listener. */
    method SetNama(v: string)
      modifies this
      ensures FormValue() == old(FormValue()).(nama := v)
      ensures mahasiswaList == old(mahasiswaList) && dosenList == old(dosenList)
      ensures StatusValue() == AfterEdit(old(StatusValue()), old(nama), v)
    {
      if v != nama {
        nama := v;
        ClearError();
      }
    }

    /** `gender.set(v)` with its listener. */
    method SetGender(v: string)
      modifies this
      ensures FormValue() == old(FormValue()).(gender := v)
      ensures mahasiswaList == old(mahasiswaList) && dosenList == old(dosenList)
      ensures StatusValue() == AfterEdit(old(StatusValue()), old(gender), v)
    {
      if v != gender {
        gender := v;
        ClearError();
      }
    }

    /** `ipk.set(v)` with its two listeners. */
    method SetIpk(v: real)
      modifies this
      ensures FormValue() == old(FormValue()).(ipk := v)
      ensures mahasiswaList == old(mahasiswaList) && dosenList == old(dosenList)
      ensures StatusValue() == IpkEdited(old(StatusValue()), old(ipk), v)
    {
      if v != ipk {
        ipk := v;
        ClearError();
        if v < 0.0 || v > 4.0 {
          SetError("IPK harus antara 0.0 - 4.0");
        }
      }
    }

    /** `dosenWali.set(v)`: no listener, the status is left alone. */
    method SetDosenWali(v: string)
      modifies this
      ensures FormValue() == old(FormValue()).(dosenWali := v)
      ensures mahasiswaList == old(mahasiswaList) && dosenList == old(dosenList)
      ensures StatusValue() == old(StatusValue())
    {
      dosenWali := v;
    }

    /**
     * `setIpkFromString(s)`: a blank text sets 0.0; otherwise `parsed` is
     * what `Double.parseDouble(s.trim())` gives, None when it throws.
     */
    method SetIpkFromString(s: Option<string>, parsed: Option<real>)
      modifies this
      ensures mahasiswaList == old(mahasiswaList) && dosenList == old(dosenList)
      ensures IsBlank(s) ==>
                FormValue() == old(FormValue()).(ipk := 0.0) && StatusValue() == IpkEdited(old(StatusValue()), old(ipk), 0.0)
      ensures !IsBlank(s) && parsed.None? ==>
                FormValue() == old(FormValue()) && StatusValue() == Errored("IPK harus berupa angka yang valid")
      ensures !IsBlank(s) && parsed.Some? ==>
                FormValue() == old(FormValue()).(ipk := parsed.value)
                && StatusValue() == IpkEdited(old(StatusValue()), old(ipk), parsed.value)
    {
      if IsBlank(s) {
        SetIpk(0.0);
      } else if parsed.None? {
        SetError("IPK harus berupa angka yang valid");
      } else {
        SetIpk(parsed.value);
      }
    }

    /** `validateInput()`: on the first failing check, report it. */
    method ValidateInput() returns (ok: bool)
      modifies this
      ensures ok <==> ValidationError(nim, nama, gender, ipk).None?
      ensures FormValue() == old(FormValue()) && mahasiswaList == old(mahasiswaList) && dosenList == old(dosenList)
      ensures StatusValue() == if ok then old(StatusValue()) else Errored(ValidationError(nim, nama, gender, ipk).value)
    {
      var e := ValidationError(nim, nama, gender, ipk);
      if e.Some? {
        SetError(e.value);
        return false;
      }
      return true;
    }

    /** `loadAllMahasiswa()`: the student list becomes `findAll()`, between `setLoading(true)` and `setLoading(false)`. */
    method LoadAllMahasiswa()
      requires Valid()
      modifies this
      ensures Listed(mahasiswaList, db.mahasiswa) && |mahasiswaList| == |db.mahasiswa|
      ensures FormValue() == old(FormValue()) && dosenList == old(dosenList)
      ensures StatusValue() == Status(false, false, "Loading...")
    {
      SetLoading(true);
      var all := mahasiswaDao.FindAll();
      mahasiswaList := all;
      SetLoading(false);
    }

    /** `loadAllDosen()`: the advisor choices become the lecturers' `findAll()`; the status is left alone. */
    method LoadAllDosen()
      requires Valid()
      modifies this
      ensures DosenDao.Listed(dosenList, db.dosen) && |dosenList| == |db.dosen|
      ensures FormValue() == old(FormValue()) && mahasiswaList == old(mahasiswaList)
      ensures StatusValue() == old(StatusValue())
    {
      var all := dosenDao.FindAll();
      dosenList := all;
    }

    /** `loadAllData()`: both lists. */
    method LoadAllData()
      requires Valid()
      modifies this
      ensures Listed(mahasiswaList, db.mahasiswa) && DosenDao.Listed(dosenList, db.dosen)
      ensures FormValue() == old(FormValue())
      ensures StatusValue() == Status(false, false, "Loading...")
    {
      LoadAllMahasiswa();
      LoadAllDosen();
    }

    /** `clearForm()`: empty fields, IPK 0.0, no selection, not editing; a field that changed clears the status. */
    method ClearForm()
      modifies this
      ensures FormValue() == EmptyForm
      ensures mahasiswaList == old(mahasiswaList) && dosenList == old(dosenList)
      ensures StatusValue() == if old(nim) != "" || old(nama) != "" || old(gender) != "" || old(ipk) != 0.0
                               then old(StatusValue()).Cleared() else old(StatusValue())
    {
      SetNim("");
      SetNama("");
      SetGender("");
      SetIpk(0.0);
      SetDosenWali("");
      selected := null;
      isEditing := false;
    }

    /** `clearCommand()`: clear the form, then the status. */
    method ClearCommand()
      modifies this
      ensures FormValue() == EmptyForm
      ensures mahasiswaList == old(mahasiswaList) && dosenList == old(dosenList)
      ensures StatusValue() == old(StatusValue()).Cleared()
    {
      ClearForm();
      ClearError();
    }

    /** `refreshCommand()`: reload both lists and report it. */
    method RefreshCommand()
      requires Valid()
      modifies this
      ensures Listed(mahasiswaList, db.mahasiswa) && DosenDao.Listed(dosenList, db.dosen)
      ensures FormValue() == old(FormValue())
      ensures StatusValue() == Succeeded("Data berhasil di-refresh!")
    {
      LoadAllData();
      Announce("Data berhasil di-refresh!");
    }

    /** `setSuccess(message)` once both lists are loaded: they stay loaded. */
    method Announce(message: string)
      requires Listed(mahasiswaList, db.mahasiswa) && DosenDao.Listed(dosenList, db.dosen)
      modifies this
      ensures Listed(mahasiswaList, db.mahasiswa) && DosenDao.Listed(dosenList, db.dosen)
      ensures FormValue() == old(FormValue())
      ensures StatusValue() == Succeeded(message)
    {
      SetSuccess(message);
    }

    /** `selectMahasiswa(m)`: copy `m` into the form for editing, or clear it for null; the error flag ends false. */
    method SelectMahasiswa(m: Mahasiswa?)
      modifies this
      ensures m != null ==>
                FormValue() == Form(m.nim.GetOr(""), m.nama.GetOr(""), m.gender.GetOr(""), m.ipk,
                                    m.dosenWali.GetOr(""), m, true)
      ensures m == null ==> FormValue() == EmptyForm
      ensures mahasiswaList == old(mahasiswaList) && dosenList == old(dosenList)
      ensures !hasError
      ensures StatusValue() ==
                if m != null && ((m.nim.GetOr("") != old(nim) && NimTooShort(m.nim.GetOr("")))
                                 || (m.ipk != old(ipk) && IpkOutOfRange(m.ipk)))
                then Status(false, false, "") else old(StatusValue()).Cleared()
    {
      selected := m;
      if m != null {
        SetNim(m.nim.GetOr(""));
        SetNama(m.nama.GetOr(""));
        SetGender(m.gender.GetOr(""));
        SetIpk(m.ipk);
        SetDosenWali(m.dosenWali.GetOr(""));
        isEditing := true;
      } else {
        ClearForm();
      }
      ClearError();
    }

    /** The start of every command: `setLoading(true); clearError();`. */
    method Begin()
      modifies this
      ensures StatusValue() == Status(true, false, "Loading...")
      ensures FormValue() == old(FormValue()) && mahasiswaList == old(mahasiswaList) && dosenList == old(dosenList)
    {
      SetLoading(true);
      ClearError();
    }

    /** A command's `catch`/early return followed by its `finally`. */
    method Fail(message: string)
      modifies this
      ensures StatusValue() == Errored(message)
      ensures FormValue() == old(FormValue()) && mahasiswaList == old(mahasiswaList) && dosenList == old(dosenList)
    {
      SetError(message);
      SetLoading(false);
    }

    /** After the reload of a command that succeeded: clear the form, report, then the `finally`. */
    method Report(message: string)
      modifies this
      ensures FormValue() == EmptyForm && mahasiswaList == old(mahasiswaList) && dosenList == old(dosenList)
      ensures StatusValue() == Succeeded(message)
    {
      ClearForm();
      SetSuccess(message);
      SetLoading(false);
    }

    /** The end of a command that succeeded: reload the students, then `Report`. */
    method Finish(message: string)
      requires Valid()
      modifies this
      ensures Listed(mahasiswaList, db.mahasiswa)
      ensures dosenList == old(dosenList)
      ensures FormValue() == EmptyForm
      ensures StatusValue() == Succeeded(message)
    {
      LoadAllMahasiswa();
      Report(message);
    }

    /** The part of `saveCommand` after the screen's own checks: build the record, hand it to the repository. */
    method SubmitSave()
      requires Valid()
      modifies this, db
      ensures Valid() && db.dosen == old(db.dosen) && dosenList == old(dosenList)
      ensures var rec := NewMahasiswa(old(nim), old(nama), old(gender), old(ipk), old(dosenWali));
              if !rec.IsValid() then
                StatusValue() == Errored("Error menyimpan data: " + InvalidMessage("mahasiswa")) && Untouched()
              else if rec.nim.value in old(db.mahasiswa) then
                StatusValue() == Errored("Error menyimpan data: " + DuplicateMessage("NIM", rec.nim.value)) && Untouched()
              else if Dangling(old(db.dosen), rec) then
                StatusValue() == Errored("Error menyimpan data: " + StorageMessage("saving", "mahasiswa", ForeignKey))
                && Untouched()
              else
                && db.mahasiswa == old(db.mahasiswa)[rec.nim.value := rec]
                && Listed(mahasiswaList, db.mahasiswa)
                && FormValue() == EmptyForm
                && StatusValue() == Succeeded("Data mahasiswa berhasil disimpan!")
    {
      var created := new Mahasiswa(Some(Trim(nim)), Some(Trim(nama)), Some(gender), ipk, AdvisorColumn(dosenWali));
      var r := mahasiswaDao.Save(created);
      if r.Failed? {
        Fail("Error menyimpan data: " + r.failure.message);
        return;
      }
      Finish("Data mahasiswa berhasil disimpan!");
    }

    /** `saveCommand()`. */
    method SaveCommand()
      requires Valid()
      modifies this, db
      ensures Valid() && db.dosen == old(db.dosen) && dosenList == old(dosenList)
      ensures !old(CanSave()) ==> StatusValue() == old(StatusValue()) && Untouched()
      ensures old(CanSave()) && ValidationError(old(nim), old(nama), old(gender), old(ipk)).Some? ==>
                StatusValue() == Errored(ValidationError(old(nim), old(nama), old(gender), old(ipk)).value) && Untouched()
      ensures old(CanSave()) && ValidationError(old(nim), old(nama), old(gender), old(ipk)).None?
              && old(nim) in old(db.mahasiswa) ==>
                StatusValue() == Errored(DuplicateMessage("NIM", old(nim))) && Untouched()
      ensures old(CanSave()) && ValidationError(old(nim), old(nama), old(gender), old(ipk)).None?
              && old(nim) !in old(db.mahasiswa) ==>
                var rec := NewMahasiswa(old(nim), old(nama), old(gender), old(ipk), old(dosenWali));
                if !(old(gender) == GenderLaki || old(gender) == GenderPerempuan) then
                  StatusValue() == Errored("Error menyimpan data: " + InvalidMessage("mahasiswa")) && Untouched()
                else if Trim(old(nim)) in old(db.mahasiswa) then
                  StatusValue() == Errored("Error menyimpan data: " + DuplicateMessage("NIM", Trim(old(nim)))) && Untouched()
                else if Dangling(old(db.dosen), rec) then
                  StatusValue() == Errored("Error menyimpan data: " + StorageMessage("saving", "mahasiswa", ForeignKey))
                  && Untouched()
                else
                  && db.mahasiswa == old(db.mahasiswa)[Trim(old(nim)) := rec]
                  && Listed(mahasiswaList, db.mahasiswa)
                  && FormValue() == EmptyForm
                  && StatusValue() == Succeeded("Data mahasiswa berhasil disimpan!")
    {
      if !CanSave() {
        return;
      }
      Begin();
      var ok := ValidateInput();
      if !ok {
        SetLoading(false);
        return;
      }
      BlankIff(Some(nim));
      ValidatedRecordIsValidIff(nim, nama, gender, ipk, dosenWali);
      var present := mahasiswaDao.ExistsByNim(Some(nim));
      if present {
        Fail(DuplicateMessage("NIM", nim));
        return;
      }
      SubmitSave();
    }

    /** What `updateCommand` does to the selected object: `setNama`, `setGender`, `setIpk`, `setDosenWali` from the form. */
    method EditSelected(target: Mahasiswa)
      modifies target
      ensures target.Value() == Edited(old(target.Value()), nama, gender, ipk, dosenWali)
    {
      target.SetNama(Some(Trim(nama)));
      target.SetGender(Some(gender));
      target.SetIpk(ipk);
      target.SetDosenWali(AdvisorColumn(dosenWali));
    }

    /** The part of `updateCommand` after validation: edit the selected object, hand it to the repository. */
    method SubmitUpdate(target: Mahasiswa)
      requires Valid()
      modifies this, db, target
      ensures Valid() && db.dosen == old(db.dosen) && dosenList == old(dosenList)
      ensures target.Value() == Edited(old(target.Value()), old(nama), old(gender), old(ipk), old(dosenWali))
      ensures !target.Value().IsValid() ==>
                StatusValue() == Errored("Error mengupdate data: " + InvalidMessage("mahasiswa")) && Untouched()
      ensures target.Value().IsValid() && target.nim.value !in old(db.mahasiswa) ==>
                StatusValue() == Errored("Error mengupdate data: " + NotFoundMessage("mahasiswa", "NIM", target.nim.value))
                && Untouched()
      ensures target.Value().IsValid() && target.nim.value in old(db.mahasiswa) && Dangling(old(db.dosen), target.Value()) ==>
                StatusValue() == Errored("Error mengupdate data: " + StorageMessage("updating", "mahasiswa", ForeignKey))
                && Untouched()
      ensures target.Value().IsValid() && target.nim.value in old(db.mahasiswa) && !Dangling(old(db.dosen), target.Value()) ==>
                && db.mahasiswa == old(db.mahasiswa)[target.nim.value := target.Value()]
                && Listed(mahasiswaList, db.mahasiswa)
                && FormValue() == EmptyForm
                && StatusValue() == Succeeded("Data mahasiswa berhasil diupdate!")
    {
      EditSelected(target);
      ghost var u := target.Value();
      var r := mahasiswaDao.Update(target);
      assert target.Value() == u;
      if r.Failed? {
        Fail("Error mengupdate data: " + r.failure.message);
        assert target.Value() == u;
        return;
      }
      assert u.IsValid() && u.nim.value in old(db.mahasiswa) && !Dangling(old(db.dosen), u);
      Finish("Data mahasiswa berhasil diupdate!");
      assert target.Value() == u;
    }

    /** `updateCommand()`: the selected object itself is edited before the repository sees it. */
    method UpdateCommand()
      requires Valid()
      modifies this, db, selected
      ensures Valid() && db.dosen == old(db.dosen) && dosenList == old(dosenList)
      ensures !old(CanUpdate()) ==>
                StatusValue() == old(StatusValue()) && Untouched() && (old(selected) != null ==> unchanged(old(selected)))
      ensures old(CanUpdate()) && ValidationError(old(nim), old(nama), old(gender), old(ipk)).Some? ==>
                StatusValue() == Errored(ValidationError(old(nim), old(nama), old(gender), old(ipk)).value) && Untouched()
                && unchanged(old(selected))
      ensures old(CanUpdate()) && ValidationError(old(nim), old(nama), old(gender), old(ipk)).None? ==>
                var u := Edited(old(selected.Value()), old(nama), old(gender), old(ipk), old(dosenWali));
                && old(selected).Value() == u
                && (!u.IsValid() ==>
                      StatusValue() == Errored("Error mengupdate data: " + InvalidMessage("mahasiswa")) && Untouched())
                && (u.IsValid() && u.nim.value !in old(db.mahasiswa) ==>
                      StatusValue() == Errored("Error mengupdate data: " + NotFoundMessage("mahasiswa", "NIM", u.nim.value))
                      && Untouched())
                && (u.IsValid() && u.nim.value in old(db.mahasiswa) && Dangling(old(db.dosen), u) ==>
                      StatusValue() == Errored("Error mengupdate data: " + StorageMessage("updating", "mahasiswa", ForeignKey))
                      && Untouched())
                && (u.IsValid() && u.nim.value in old(db.mahasiswa) && !Dangling(old(db.dosen), u) ==>
                      && db.mahasiswa == old(db.mahasiswa)[u.nim.value := u]
                      && Listed(mahasiswaList, db.mahasiswa)
                      && FormValue() == EmptyForm
                      && StatusValue() == Succeeded("Data mahasiswa berhasil diupdate!"))
    {
      if !CanUpdate() || selected == null {
        return;
      }
      Begin();
      var ok := ValidateInput();
      if !ok {
        SetLoading(false);
        return;
      }
      SubmitUpdate(selected);
    }

    /** `deleteCommand()`: delete the selected student's key. */
    method DeleteCommand()
      requires Valid()
      modifies this, db
      ensures Valid() && db.dosen == old(db.dosen) && dosenList == old(dosenList)
      ensures !old(CanDelete()) ==> StatusValue() == old(StatusValue()) && Untouched()
      ensures old(CanDelete()) && IsBlank(old(selected.nim)) ==>
                StatusValue() == Errored("Error menghapus data: " + BlankKeyMessage("NIM")) && Untouched()
      ensures old(CanDelete()) && !IsBlank(old(selected.nim)) && old(selected.nim).value !in old(db.mahasiswa) ==>
                StatusValue() == Errored("Error menghapus data: " + NotFoundMessage("mahasiswa", "NIM", old(selected.nim).value))
                && Untouched()
      ensures old(CanDelete()) && !IsBlank(old(selected.nim)) && old(selected.nim).value in old(db.mahasiswa) ==>
                && db.mahasiswa == old(db.mahasiswa) - {old(selected.nim).value}
                && Listed(mahasiswaList, db.mahasiswa)
                && FormValue() == EmptyForm
                && StatusValue() == Succeeded("Data mahasiswa berhasil dihapus!")
    {
      if !CanDelete() || selected == null {
        return;
      }
      Begin();
      var r := mahasiswaDao.Delete(selected.nim);
      if r.Failed? {
        Fail("Error menghapus data: " + r.failure.message);
        return;
      }
      Finish("Data mahasiswa berhasil dihapus!");
    }
  }

  /**
   * The three buttons: save and update are never enabled together, update
   * implies delete, and nothing is enabled while loading.
   */
  lemma Flags(vm: MahasiswaViewModel)
    ensures !(vm.CanSave() && vm.CanUpdate())
    ensures vm.CanUpdate() ==> vm.CanDelete()
    ensures vm.isLoading ==> !vm.CanSave() && !vm.CanUpdate() && !vm.CanDelete()
    ensures vm.ipk == 0.0 ==> !vm.CanSave() && !vm.CanUpdate()
  {
  }
}
