/**
 * The lecturer screen's view-model, `akademik.viewmodel.DosenViewModel`.
 * JavaFX properties become fields; the bound flags `canSave`, `canUpdate`
 * and `canDelete` become predicates of those fields; the change listeners
 * become the effects of the field setters `SetNpp`, `SetNama`, `SetNoHp`,
 * which run them only when the value really changes, in the order they
 * were registered (clear the status first, then the length check).
 */
module DosenVm {
  import opened Wrappers
  import opened Text
  import opened DosenModel
  import opened Store
  import opened Failures
  import opened DosenDao
  import opened UiStatus

  /** The form fields and the selection. */
  datatype Form = Form(npp: string, nama: string, noHp: string, selected: Dosen?, editing: bool)

  /** What `clearForm()` leaves. */
  const EmptyForm: Form := Form("", "", "", null, false)

  /** A form field as an optional column: blank becomes null, anything else is trimmed. */
  function Optional(s: string): (r: Option<string>)
    ensures r.None? <==> AllWhite(s)
    ensures r.Some? ==> r.value != [] && Trim(r.value) == r.value
  {
    TrimEmptyIff(s);
    TrimIdempotent(s);
    if Trim(s) == [] then None else Some(Trim(s))
  }

  /** The record `saveCommand` builds from the form. */
  function NewDosen(npp: string, nama: string, noHp: string): DosenRecord {
    DosenRecord(Some(Trim(npp)), Some(Trim(nama)), Optional(noHp))
  }

  /** What `updateCommand` writes into the selected object before handing it to the repository. */
  function Edited(r: DosenRecord, nama: string, noHp: string): DosenRecord {
    r.(nama := Some(Trim(nama)), noHp := Optional(noHp))
  }

  /** `validateInput()`: the first complaint, in the order the checks run, or none. */
  function ValidationError(npp: string, nama: string): (e: Option<string>)
    ensures e == Some("NPP tidak boleh kosong") <==> AllWhite(npp)
    ensures e == Some("Nama tidak boleh kosong") <==> !AllWhite(npp) && AllWhite(nama)
    ensures e == Some("NPP minimal 3 karakter") <==> !AllWhite(npp) && !AllWhite(nama) && |Trim(npp)| < 3
    ensures e.None? <==> !AllWhite(npp) && !AllWhite(nama) && |Trim(npp)| >= 3
  {
    TrimEmptyIff(npp);
    TrimEmptyIff(nama);
    if Trim(npp) == [] then Some("NPP tidak boleh kosong")
    else if Trim(nama) == [] then Some("Nama tidak boleh kosong")
    else if |Trim(npp)| < 3 then Some("NPP minimal 3 karakter")
    else None
  }

  /** A form that passes `validateInput()` builds a record the repository accepts, whatever `noHp` holds. */
  lemma ValidatedRecordIsValid(npp: string, nama: string, noHp: string)
    requires ValidationError(npp, nama).None?
    ensures NewDosen(npp, nama, noHp).IsValid()
    ensures NewDosen(npp, nama, noHp).npp.value == Trim(npp) && |Trim(npp)| >= 3
  {
    TrimEmptyIff(npp);
    TrimEmptyIff(nama);
    TrimIdempotent(npp);
    TrimIdempotent(nama);
  }

  /** A whitespace-only NPP enables the save button but never reaches the repository. */
  lemma BlankNppPassesCanSaveOnly(npp: string, nama: string)
    requires npp != [] && AllWhite(npp)
    ensures ValidationError(npp, nama) == Some("NPP tidak boleh kosong")
  {
  }

  /** The NPP listener's length check: non-blank and shorter than three characters. */
  predicate NppTooShort(v: string) {
    Trim(v) != [] && |v| < 3
  }

  /** The status after the NPP field goes from `was` to `v`. */
  function NppEdited(s: Status, was: string, v: string): Status {
    if v == was then s
    else if NppTooShort(v) then Errored("NPP minimal 3 karakter")
    else s.Cleared()
  }

  class DosenViewModel {
    const dao: DosenDaoImpl
    var dosenList: seq<Dosen>
    var npp: string
    var nama: string
    var noHp: string
    var selected: Dosen?
    var isEditing: bool
    var isLoading: bool
    var statusMessage: string
    var hasError: bool

    ghost predicate Valid()
      reads dao.db
    {
      dao.db.Valid()
    }

    function FormValue(): Form
      reads this
    {
      Form(npp, nama, noHp, selected, isEditing)
    }

    function StatusValue(): Status
      reads this
    {
      Status(isLoading, hasError, statusMessage)
    }

    /** Nothing else changed: the form, the list and both tables are as before. */
    twostate predicate Untouched()
      reads this, dao.db
    {
      && FormValue() == old(FormValue()) && dosenList == old(dosenList)
      && dao.db.dosen == old(dao.db.dosen) && dao.db.mahasiswa == old(dao.db.mahasiswa)
    }

    /** `canSave`: not editing, `npp` and `nama` non-empty (untrimmed), not loading. */
    predicate CanSave()
      reads this
    {
      !isEditing && npp != "" && nama != "" && !isLoading
    }

    /** `canUpdate`: editing a selected lecturer, `nama` non-empty, not loading. */
    predicate CanUpdate()
      reads this
    {
      isEditing && selected != null && nama != "" && !isLoading
    }

    /** `canDelete`: a lecturer is selected, not loading. */
    predicate CanDelete()
      reads this
    {
      selected != null && !isLoading
    }

    /** The constructor: empty form, then `loadAllDosen()`, whose "Loading..." stays as the message. */
    constructor (db: Database)
      requires db.Valid()
      ensures dao.db == db && Valid()
      ensures FormValue() == EmptyForm
      ensures StatusValue() == Status(false, false, "Loading...")
      ensures Listed(dosenList, db.dosen)
    {
      dao := new DosenDaoImpl(db);
      dosenList := [];
      npp, nama, noHp := "", "", "";
      selected := null;
      isEditing, isLoading, statusMessage, hasError := false, false, "", false;
      new;
      LoadAllDosen();
    }

    method SetLoading(on: bool)
      modifies this
      ensures StatusValue() == old(StatusValue()).Loading(on)
      ensures FormValue() == old(FormValue()) && dosenList == old(dosenList)
    {
      isLoading := on;
      if on {
        statusMessage := "Loading...";
        hasError := false;
      }
    }

    method SetError(message: string)
      modifies this
      ensures StatusValue() == Errored(message)
      ensures FormValue() == old(FormValue()) && dosenList == old(dosenList)
    {
      statusMessage := message;
      hasError := true;
      isLoading := false;
    }

    method SetSuccess(message: string)
      modifies this
      ensures StatusValue() == Succeeded(message)
      ensures FormValue() == old(FormValue()) && dosenList == old(dosenList)
    {
      statusMessage := message;
      hasError := false;
      isLoading := false;
    }

    method ClearError()
      modifies this
      ensures StatusValue() == old(StatusValue()).Cleared()
      ensures FormValue() == old(FormValue()) && dosenList == old(dosenList)
    {
      hasError := false;
      if !isLoading {
        statusMessage := "";
      }
    }

    /** `npp.set(v)` with its two listeners. */
    method SetNpp(v: string)
      modifies this
      ensures FormValue() == old(FormValue()).(npp := v) && dosenList == old(dosenList)
      ensures StatusValue() == NppEdited(old(StatusValue()), old(npp), v)
    {
      if v != npp {
        npp := v;
        ClearError();
        if Trim(v) != [] && |v| < 3 {
          SetError("NPP minimal 3 karakter");
        }
      }
    }

    /** `nama.set(v)` with its listener. */
    method SetNama(v: string)
      modifies this
      ensures FormValue() == old(FormValue()).(nama := v) && dosenList == old(dosenList)
      ensures StatusValue() == AfterEdit(old(StatusValue()), old(nama), v)
    {
      if v != nama {
        nama := v;
        ClearError();
      }
    }

    /** `noHp.set(v)` with its listener. */
    method SetNoHp(v: string)
      modifies this
      ensures FormValue() == old(FormValue()).(noHp := v) && dosenList == old(dosenList)
      ensures StatusValue() == AfterEdit(old(StatusValue()), old(noHp), v)
    {
      if v != noHp {
        noHp := v;
        ClearError();
      }
    }

    /** `validateInput()`: on the first failing check, report it. */
    method ValidateInput() returns (ok: bool)
      modifies this
      ensures ok <==> ValidationError(npp, nama).None?
      ensures FormValue() == old(FormValue()) && dosenList == old(dosenList)
      ensures StatusValue() == if ok then old(StatusValue()) else Errored(ValidationError(npp, nama).value)
    {
      var e := ValidationError(npp, nama);
      if e.Some? {
        SetError(e.value);
        return false;
      }
      return true;
    }

    /** `loadAllDosen()`: the list becomes `findAll()`. */
    method LoadAllDosen()
      requires Valid()
      modifies this
      ensures Listed(dosenList, dao.db.dosen) && |dosenList| == |dao.db.dosen|
      ensures FormValue() == old(FormValue())
      ensures StatusValue() == Status(false, false, "Loading...")
    {
      SetLoading(true);
      var all := dao.FindAll();
      dosenList := all;
      SetLoading(false);
    }

    /** `clearForm()`: empty fields, no selection, not editing; any field that changed clears the status. */
    method ClearForm()
      modifies this
      ensures FormValue() == EmptyForm && dosenList == old(dosenList)
      ensures StatusValue() == if old(npp) != "" || old(nama) != "" || old(noHp) != ""
                               then old(StatusValue()).Cleared() else old(StatusValue())
    {
      SetNpp("");
      SetNama("");
      SetNoHp("");
      selected := null;
      isEditing := false;
    }

    /** `selectDosen(d)`: copy `d` into the form for editing, or clear it for null; the error flag ends false. */
    method SelectDosen(d: Dosen?)
      modifies this
      ensures d != null ==> FormValue() == Form(d.npp.GetOr(""), d.nama.GetOr(""), d.noHp.GetOr(""), d, true)
      ensures d == null ==> FormValue() == EmptyForm
      ensures dosenList == old(dosenList)
      ensures !hasError
      ensures StatusValue() == if d != null && d.npp.GetOr("") != old(npp) && NppTooShort(d.npp.GetOr(""))
                               then Status(false, false, "") else old(StatusValue()).Cleared()
    {
      selected := d;
      if d != null {
        SetNpp(d.npp.GetOr(""));
        SetNama(d.nama.GetOr(""));
        SetNoHp(d.noHp.GetOr(""));
        isEditing := true;
      } else {
        ClearForm();
      }
      ClearError();
    }

    /** The start of every command: `setLoading(true); clearError();`. */
    method Begin()
      modifies this
      ensures StatusValue() == Status(true, false, "Loading...")
      ensures FormValue() == old(FormValue()) && dosenList == old(dosenList)
    {
      SetLoading(true);
      ClearError();
    }

    /** A command's `catch`/early return followed by its `finally`. */
    method Fail(message: string)
      modifies this
      ensures StatusValue() == Errored(message)
      ensures FormValue() == old(FormValue()) && dosenList == old(dosenList)
    {
      SetError(message);
      SetLoading(false);
    }

    /** After the reload of a command that succeeded: clear the form, report, then the `finally`. */
    method Report(message: string)
      modifies this
      ensures FormValue() == EmptyForm && dosenList == old(dosenList)
      ensures StatusValue() == Succeeded(message)
    {
      ClearForm();
      SetSuccess(message);
      SetLoading(false);
    }

    /** The end of a command that succeeded: reload, then `Report`. */
    method Finish(message: string)
      requires Valid()
      modifies this
      ensures Listed(dosenList, dao.db.dosen)
      ensures FormValue() == EmptyForm
      ensures StatusValue() == Succeeded(message)
    {
      LoadAllDosen();
      Report(message);
    }

    /** `saveCommand()`. */
    method SaveCommand()
      requires Valid()
      modifies this, dao.db
      ensures Valid()
      ensures !old(CanSave()) ==> StatusValue() == old(StatusValue()) && Untouched()
      ensures old(CanSave()) && ValidationError(old(npp), old(nama)).Some? ==>
                StatusValue() == Errored(ValidationError(old(npp), old(nama)).value) && Untouched()
      ensures old(CanSave()) && ValidationError(old(npp), old(nama)).None? && old(npp) in old(dao.db.dosen) ==>
                StatusValue() == Errored(DuplicateMessage("NPP", old(npp))) && Untouched()
      ensures old(CanSave()) && ValidationError(old(npp), old(nama)).None? && old(npp) !in old(dao.db.dosen)
              && Trim(old(npp)) in old(dao.db.dosen) ==>
                StatusValue() == Errored("Error menyimpan data: " + DuplicateMessage("NPP", Trim(old(npp))))
                && Untouched()
      ensures old(CanSave()) && ValidationError(old(npp), old(nama)).None? && old(npp) !in old(dao.db.dosen)
              && Trim(old(npp)) !in old(dao.db.dosen) ==>
                && dao.db.dosen == old(dao.db.dosen)[Trim(old(npp)) := NewDosen(old(npp), old(nama), old(noHp))]
                && dao.db.mahasiswa == old(dao.db.mahasiswa)
                && Listed(dosenList, dao.db.dosen)
                && FormValue() == EmptyForm
                && StatusValue() == Succeeded("Data dosen berhasil disimpan!")
    {
      if !CanSave() {
        return;
      }
      Begin();
      var ok := ValidateInput();
      if !ok {
        SetLoading(false);
        return;
      }
      SubmitSave();
    }

    /** The part of `saveCommand` after validation: the duplicate check, then the repository. */
    method SubmitSave()
      requires Valid() && ValidationError(npp, nama).None?
      modifies this, dao.db
      ensures Valid()
      ensures old(npp) in old(dao.db.dosen) ==>
                StatusValue() == Errored(DuplicateMessage("NPP", old(npp))) && Untouched()
      ensures old(npp) !in old(dao.db.dosen) && Trim(old(npp)) in old(dao.db.dosen) ==>
                StatusValue() == Errored("Error menyimpan data: " + DuplicateMessage("NPP", Trim(old(npp))))
                && Untouched()
      ensures old(npp) !in old(dao.db.dosen) && Trim(old(npp)) !in old(dao.db.dosen) ==>
                && dao.db.dosen == old(dao.db.dosen)[Trim(old(npp)) := NewDosen(old(npp), old(nama), old(noHp))]
                && dao.db.mahasiswa == old(dao.db.mahasiswa)
                && Listed(dosenList, dao.db.dosen)
                && FormValue() == EmptyForm
                && StatusValue() == Succeeded("Data dosen berhasil disimpan!")
    {
      BlankIff(Some(npp));
      var present := dao.ExistsByNpp(Some(npp));
      if present {
        Fail(DuplicateMessage("NPP", npp));
        return;
      }
      ValidatedRecordIsValid(npp, nama, noHp);
      var created := new Dosen(Some(Trim(npp)), Some(Trim(nama)), Optional(noHp));
      var r := dao.Save(created);
      if r.Failed? {
        Fail("Error menyimpan data: " + r.failure.message);
        return;
      }
      Finish("Data dosen berhasil disimpan!");
    }

    /** What `updateCommand` does to the selected object: `setNama` and `setNoHp` from the form. */
    method EditSelected(target: Dosen)
      modifies target
      ensures target.Value() == Edited(old(target.Value()), nama, noHp)
    {
      target.SetNama(Some(Trim(nama)));
      target.SetNoHp(Optional(noHp));
    }

    /** The part of `updateCommand` after validation: edit the selected object, hand it to the repository. */
    method SubmitUpdate(target: Dosen)
      requires Valid()
      modifies this, dao.db, target
      ensures Valid()
      ensures target.Value() == Edited(old(target.Value()), old(nama), old(noHp))
      ensures !target.Value().IsValid() ==>
                StatusValue() == Errored("Error mengupdate data: " + InvalidMessage("dosen")) && Untouched()
      ensures target.Value().IsValid() && target.npp.value !in old(dao.db.dosen) ==>
                StatusValue() == Errored("Error mengupdate data: " + NotFoundMessage("dosen", "NPP", target.npp.value))
                && Untouched()
      ensures target.Value().IsValid() && target.npp.value in old(dao.db.dosen) ==>
                && dao.db.dosen == old(dao.db.dosen)[target.npp.value := target.Value()]
                && dao.db.mahasiswa == old(dao.db.mahasiswa)
                && Listed(dosenList, dao.db.dosen)
                && FormValue() == EmptyForm
                && StatusValue() == Succeeded("Data dosen berhasil diupdate!")
    {
      EditSelected(target);
      ghost var u := target.Value();
      var r := dao.Update(target);
      assert target.Value() == u;
      if r.Failed? {
        Fail("Error mengupdate data: " + r.failure.message);
        assert target.Value() == u;
        return;
      }
      assert u.IsValid() && u.npp.value in old(dao.db.dosen);
      ghost var t := dao.db.dosen;
      Finish("Data dosen berhasil diupdate!");
      assert target.Value() == u;
    }

    /** `updateCommand()`: the selected object itself is edited before the repository sees it. */
    method UpdateCommand()
      requires Valid()
      modifies this, dao.db, selected
      ensures Valid()
      ensures !old(CanUpdate()) ==>
                StatusValue() == old(StatusValue()) && Untouched() && (old(selected) != null ==> unchanged(old(selected)))
      ensures old(CanUpdate()) && ValidationError(old(npp), old(nama)).Some? ==>
                StatusValue() == Errored(ValidationError(old(npp), old(nama)).value) && Untouched()
                && unchanged(old(selected))
      ensures old(CanUpdate()) && ValidationError(old(npp), old(nama)).None? ==>
                old(selected).Value() == Edited(old(selected.Value()), old(nama), old(noHp))
      ensures old(CanUpdate()) && ValidationError(old(npp), old(nama)).None?
              && !Edited(old(selected.Value()), old(nama), old(noHp)).IsValid() ==>
                StatusValue() == Errored("Error mengupdate data: " + InvalidMessage("dosen")) && Untouched()
      ensures old(CanUpdate()) && ValidationError(old(npp), old(nama)).None?
              && Edited(old(selected.Value()), old(nama), old(noHp)).IsValid()
              && old(selected.npp).value !in old(dao.db.dosen) ==>
                StatusValue() == Errored("Error mengupdate data: " + NotFoundMessage("dosen", "NPP", old(selected.npp).value))
                && Untouched()
      ensures old(CanUpdate()) && ValidationError(old(npp), old(nama)).None?
              && Edited(old(selected.Value()), old(nama), old(noHp)).IsValid()
              && old(selected.npp).value in old(dao.db.dosen) ==>
                && dao.db.dosen == old(dao.db.dosen)[old(selected.npp).value := Edited(old(selected.Value()), old(nama), old(noHp))]
                && dao.db.mahasiswa == old(dao.db.mahasiswa)
                && Listed(dosenList, dao.db.dosen)
                && FormValue() == EmptyForm
                && StatusValue() == Succeeded("Data dosen berhasil diupdate!")
    {
      if !CanUpdate() || selected == null {
        return;
      }
      Begin();
      var ok := ValidateInput();
      if !ok {
        SetLoading(false);
        return;
      }
      SubmitUpdate(selected);
    }

    /** `deleteCommand()`: delete the selected lecturer's key; the store clears it as advisor. */
    method DeleteCommand()
      requires Valid()
      modifies this, dao.db
      ensures Valid()
      ensures !old(CanDelete()) ==> StatusValue() == old(StatusValue()) && Untouched()
      ensures old(CanDelete()) && IsBlank(old(selected.npp)) ==>
                StatusValue() == Errored("Error menghapus data: " + BlankKeyMessage("NPP")) && Untouched()
      ensures old(CanDelete()) && !IsBlank(old(selected.npp)) && old(selected.npp).value !in old(dao.db.dosen) ==>
                StatusValue() == Errored("Error menghapus data: " + NotFoundMessage("dosen", "NPP", old(selected.npp).value))
                && Untouched()
      ensures old(CanDelete()) && !IsBlank(old(selected.npp)) && old(selected.npp).value in old(dao.db.dosen) ==>
                && dao.db.dosen == old(dao.db.dosen) - {old(selected.npp).value}
                && dao.db.mahasiswa == ClearDosenWali(old(dao.db.mahasiswa), old(selected.npp).value)
                && Listed(dosenList, dao.db.dosen)
                && FormValue() == EmptyForm
                && StatusValue() == Succeeded("Data dosen berhasil dihapus!")
    {
      if !CanDelete() || selected == null {
        return;
      }
      Begin();
      var r := dao.Delete(selected.npp);
      if r.Failed? {
        Fail("Error menghapus data: " + r.failure.message);
        return;
      }
      Finish("Data dosen berhasil dihapus!");
    }
  }

  /**
   * The three buttons: save and update are never enabled together, update
   * implies delete, and nothing is enabled while loading.
   */
  lemma Flags(vm: DosenViewModel)
    ensures !(vm.CanSave() && vm.CanUpdate())
    ensures vm.CanUpdate() ==> vm.CanDelete()
    ensures vm.isLoading ==> !vm.CanSave() && !vm.CanUpdate() && !vm.CanDelete()
  {
  }
}
