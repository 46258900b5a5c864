/** The lecturer record, `akademik.model.Dosen`. */
module DosenModel {
  import opened Wrappers
  import opened Text

  /**
   * The three fields of a lecturer: what a `Dosen` object holds, and what a
   * row of table `dosen` stores (`npp` is the key, `noHp` is optional).
   */
  datatype DosenRecord = DosenRecord(npp: Option<string>, nama: Option<string>, noHp: Option<string>) {

    /** `isValid()`: key and name are present and not blank; the phone number plays no part. */
    predicate IsValid() {
      !IsBlank(npp) && !IsBlank(nama)
    }
  }

  /** Validity in plain terms: key and name each hold a character above U+0020. */
  lemma IsValidIff(r: DosenRecord)
    ensures r.IsValid() <==>
            r.npp.Some? && !AllWhite(r.npp.value) && r.nama.Some? && !AllWhite(r.nama.value)
  {
    BlankIff(r.npp);
    BlankIff(r.nama);
  }

  /** A mutable `Dosen` object. */
  class Dosen {
    var npp: Option<string>
    var nama: Option<string>
    var noHp: Option<string>

    /** The object's current field values. */
    function Value(): DosenRecord
      reads this
    {
      DosenRecord(npp, nama, noHp)
    }

    /** `new Dosen()`: every field is null. */
    constructor Empty()
      ensures Value() == DosenRecord(None, None, None)
    {
      npp, nama, noHp := None, None, None;
    }

    /** `new Dosen(npp, nama, noHp)`. */
    constructor (npp: Option<string>, nama: Option<string>, noHp: Option<string>)
      ensures Value() == DosenRecord(npp, nama, noHp)
    {
      this.npp, this.nama, this.noHp := npp, nama, noHp;
    }

    /** `new Dosen(npp, nama)`: the phone number is null. */
    constructor WithoutNoHp(npp: Option<string>, nama: Option<string>)
      ensures Value() == DosenRecord(npp, nama, None)
    {
      this.npp, this.nama, this.noHp := npp, nama, None;
    }

    method SetNpp(v: Option<string>)
      modifies this
      ensures Value() == old(Value()).(npp := v)
    {
      npp := v;
    }

    method SetNama(v: Option<string>)
      modifies this
      ensures Value() == old(Value()).(nama := v)
    {
      nama := v;
    }

    method SetNoHp(v: Option<string>)
      modifies this
      ensures Value() == old(Value()).(noHp := v)
    {
      noHp := v;
    }

    /** `equals(obj)`: the same object, or another `Dosen` with the same key (both null included). */
    predicate Equals(obj: Dosen?)
      reads this, obj
      ensures Equals(obj) <==> obj != null && obj.npp == npp
    {
      this == obj || (obj != null && (if npp.Some? then Some(npp.value) == obj.npp else obj.npp.None?))
    }

    /** `hashCode()`: the key's hash, 0 for a null key. */
    function HashCode(): (h: int)
      reads this
      ensures -TwoTo31 <= h < TwoTo31
      ensures npp.None? ==> h == 0
    {
      if npp.Some? then StringHash(npp.value) else 0
    }

    /** `toString()`: "[npp] nama". */
    function ToString(): string
      reads this
    {
      "[" + Show(npp) + "] " + Show(nama)
    }
  }

  /** `equals` is an equivalence relation on lecturers. */
  lemma EqualsIsEquivalence(a: Dosen, b: Dosen, c: Dosen)
    ensures a.Equals(a)
    ensures a.Equals(b) ==> b.Equals(a)
    ensures a.Equals(b) && b.Equals(c) ==> a.Equals(c)
  {
  }

  /** Equal lecturers have equal hash codes. */
  lemma HashCodeConsistent(a: Dosen, b: Dosen)
    requires a.Equals(b)
    ensures a.HashCode() == b.HashCode()
  {
  }

  /** The label shows the key: reading the brackets of `toString()` gives the key back. */
  lemma ToStringShowsKey(d: Dosen)
    requires ']' !in Show(d.npp)
    ensures d.npp.Some? ==> LabelKey(d.ToString()) == d.npp.value
    ensures d.npp.None? ==> LabelKey(d.ToString()) == "null"
  {
    LabelKeyRoundTrip(Show(d.npp), Show(d.nama));
  }

  /** The field values of a list of objects, position by position. */
  ghost function Values(list: seq<Dosen>): (vs: seq<DosenRecord>)
    reads list
  {
    seq(|list|, i reads list requires 0 <= i < |list| => list[i].Value())
  }
}
