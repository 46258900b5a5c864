/** The student record, `akademik.model.Mahasiswa`. */
module MahasiswaModel {
  import opened Wrappers
  import opened Text

  /** The two accepted genders (`GENDER_LAKI`, `GENDER_PEREMPUAN`). */
  const GenderLaki: string := "Laki-laki"
  const GenderPerempuan: string := "Perempuan"

  /**
   * The five fields of a student: what a `Mahasiswa` object holds, and what
   * a row of table `mahasiswa` stores (`nim` is the key, `dosenWali` the
   * optional key of the advising lecturer).
   */
  datatype MahasiswaRecord = MahasiswaRecord(
    nim: Option<string>,
    nama: Option<string>,
    gender: Option<string>,
    ipk: real,
    dosenWali: Option<string>)
  {
    /** `isValidGender()`: exactly one of the two constants; null is rejected. */
    predicate IsValidGender() {
      Some(GenderLaki) == gender || Some(GenderPerempuan) == gender
    }

    /** `isValidIpk()`: the closed interval [0.0, 4.0]. */
    predicate IsValidIpk() {
      ipk >= 0.0 && ipk <= 4.0
    }

    /** `isValid()`: key and name not blank, a valid gender and a valid IPK. */
    predicate IsValid() {
      !IsBlank(nim) && !IsBlank(nama) && IsValidGender() && IsValidIpk()
    }
  }

  /** Validity in plain terms; `dosenWali` plays no part. */
  lemma IsValidIff(r: MahasiswaRecord)
    ensures r.IsValid() <==>
            && r.nim.Some? && !AllWhite(r.nim.value)
            && r.nama.Some? && !AllWhite(r.nama.value)
            && r.gender in {Some("Laki-laki"), Some("Perempuan")}
            && 0.0 <= r.ipk <= 4.0
  {
    BlankIff(r.nim);
    BlankIff(r.nama);
  }

  /** The IPK bounds are inclusive: 0.0 and 4.0 pass, anything outside fails. */
  lemma IpkBoundaries(r: MahasiswaRecord)
    ensures r.ipk == 0.0 || r.ipk == 4.0 ==> r.IsValidIpk()
    ensures r.ipk < 0.0 || r.ipk > 4.0 ==> !r.IsValidIpk() && !r.IsValid()
  {
  }

  /** The five categories, lowest first. */
  const Categories: seq<string> := ["Kurang", "Cukup", "Memuaskan", "Sangat Memuaskan", "Cum Laude"]

  /** `getPrestasiKategori()`: thresholds 3.50, 3.00, 2.50 and 2.00, `Kurang` below. */
  function PrestasiKategori(ipk: real): (k: string)
    ensures k in Categories
    ensures k == "Cum Laude" <==> ipk >= 3.5
    ensures k == "Sangat Memuaskan" <==> 3.0 <= ipk < 3.5
    ensures k == "Memuaskan" <==> 2.5 <= ipk < 3.0
    ensures k == "Cukup" <==> 2.0 <= ipk < 2.5
    ensures k == "Kurang" <==> ipk < 2.0
  {
    if ipk >= 3.50 then "Cum Laude"
    else if ipk >= 3.00 then "Sangat Memuaskan"
    else if ipk >= 2.50 then "Memuaskan"
    else if ipk >= 2.00 then "Cukup"
    else "Kurang"
  }

  /** A category's position in `Categories`. */
  function Rank(k: string): (n: nat)
    requires k in Categories
    ensures n < |Categories| && Categories[n] == k
  {
    if k == "Kurang" then 0
    else if k == "Cukup" then 1
    else if k == "Memuaskan" then 2
    else if k == "Sangat Memuaskan" then 3
    else 4
  }

  /** A higher IPK never earns a lower category. */
  lemma PrestasiMonotone(a: real, b: real)
    requires a <= b
    ensures Rank(PrestasiKategori(a)) <= Rank(PrestasiKategori(b))
  {
  }

  /** A mutable `Mahasiswa` object. */
  class Mahasiswa {
    var nim: Option<string>
    var nama: Option<string>
    var gender: Option<string>
    var ipk: real
    var dosenWali: Option<string>

    /** The object's current field values. */
    function Value(): MahasiswaRecord
      reads this
    {
      MahasiswaRecord(nim, nama, gender, ipk, dosenWali)
    }

    /** `new Mahasiswa()`: null strings and Java's default 0.0 for the IPK. */
    constructor Empty()
      ensures Value() == MahasiswaRecord(None, None, None, 0.0, None)
    {
      nim, nama, gender, ipk, dosenWali := None, None, None, 0.0, None;
    }

    /** `new Mahasiswa(nim, nama, gender, ipk, dosenWali)`. */
    constructor (nim: Option<string>, nama: Option<string>, gender: Option<string>, ipk: real,
                 dosenWali: Option<string>)
      ensures Value() == MahasiswaRecord(nim, nama, gender, ipk, dosenWali)
    {
      this.nim, this.nama, this.gender, this.ipk, this.dosenWali := nim, nama, gender, ipk, dosenWali;
    }

    /** `new Mahasiswa(nim, nama, gender, ipk)`: no advising lecturer. */
    constructor WithoutDosenWali(nim: Option<string>, nama: Option<string>, gender: Option<string>,
                                 ipk: real)
      ensures Value() == MahasiswaRecord(nim, nama, gender, ipk, None)
    {
      this.nim, this.nama, this.gender, this.ipk, this.dosenWali := nim, nama, gender, ipk, None;
    }

    method SetNim(v: Option<string>)
      modifies this
      ensures Value() == old(Value()).(nim := v)
    {
      nim := v;
    }

    method SetNama(v: Option<string>)
      modifies this
      ensures Value() == old(Value()).(nama := v)
    {
      nama := v;
    }

    method SetGender(v: Option<string>)
      modifies this
      ensures Value() == old(Value()).(gender := v)
    {
      gender := v;
    }

    method SetIpk(v: real)
      modifies this
      ensures Value() == old(Value()).(ipk := v)
    {
      ipk := v;
    }

    method SetDosenWali(v: Option<string>)
      modifies this
      ensures Value() == old(Value()).(dosenWali := v)
    {
      dosenWali := v;
    }

    /** `getPrestasiKategori()` of this student. */
    function GetPrestasiKategori(): (k: string)
      reads this
      ensures k == PrestasiKategori(ipk)
    {
      PrestasiKategori(ipk)
    }

    /** `equals(obj)`: the same object, or another `Mahasiswa` with the same key (both null included). */
    predicate Equals(obj: Mahasiswa?)
      reads this, obj
      ensures Equals(obj) <==> obj != null && obj.nim == nim
    {
      this == obj || (obj != null && (if nim.Some? then Some(nim.value) == obj.nim else obj.nim.None?))
    }

    /** `hashCode()`: the key's hash, 0 for a null key. */
    function HashCode(): (h: int)
      reads this
      ensures -TwoTo31 <= h < TwoTo31
      ensures nim.None? ==> h == 0
    {
      if nim.Some? then StringHash(nim.value) else 0
    }

    /** `toString()`: `String.format("[%s] %s", nim, nama)`. */
    function ToString(): string
      reads this
    {
      "[" + Show(nim) + "] " + Show(nama)
    }
  }

  /** `equals` is an equivalence relation on students. */
  lemma EqualsIsEquivalence(a: Mahasiswa, b: Mahasiswa, c: Mahasiswa)
    ensures a.Equals(a)
    ensures a.Equals(b) ==> b.Equals(a)
    ensures a.Equals(b) && b.Equals(c) ==> a.Equals(c)
  {
  }

  /** Equal students have equal hash codes. */
  lemma HashCodeConsistent(a: Mahasiswa, b: Mahasiswa)
    requires a.Equals(b)
    ensures a.HashCode() == b.HashCode()
  {
  }

  /** The label shows the key: reading the brackets of `toString()` gives the key back. */
  lemma ToStringShowsKey(m: Mahasiswa)
    requires ']' !in Show(m.nim)
    ensures m.nim.Some? ==> LabelKey(m.ToString()) == m.nim.value
    ensures m.nim.None? ==> LabelKey(m.ToString()) == "null"
  {
    LabelKeyRoundTrip(Show(m.nim), Show(m.nama));
  }

  /** The field values of a list of objects, position by position. */
  ghost function Values(list: seq<Mahasiswa>): (vs: seq<MahasiswaRecord>)
    reads list
  {
    seq(|list|, i reads list requires 0 <= i < |list| => list[i].Value())
  }
}
