/**
 * The status part of both view-models: `isLoading`, `hasError` and
 * `statusMessage`, and what `setLoading`, `setError`, `setSuccess` and
 * `clearError` do to them (identical in `DosenViewModel` and
 * `MahasiswaViewModel`).
 */
module UiStatus {

  datatype Status = Status(loading: bool, error: bool, message: string)
  {
    /** `setLoading(on)`: switching on shows "Loading..." and drops the error flag; switching off touches nothing else. */
    function Loading(on: bool): Status
    {
      if on then Status(true, false, "Loading...") else this.(loading := false)
    }

    /** `clearError()`: drops the error flag; the message goes only when nothing is loading. */
    function Cleared(): Status
    {
      this.(error := false, message := if loading then message else "")
    }
  }

  /** `setError(m)`: the message, the error flag, and loading forced off. */
  function Errored(message: string): Status
  {
    Status(false, true, message)
  }

  /** `setSuccess(m)`: the message, no error, and loading forced off. */
  function Succeeded(message: string): Status
  {
    Status(false, false, message)
  }

  /** A field whose only listener is `clearError()` goes from `was` to `v`: the listener runs only on a change. */
  function AfterEdit<T(==)>(s: Status, was: T, v: T): Status
  {
    if v == was then s else s.Cleared()
  }

  /** What the bound controls can show together: while loading there is no error and the label reads "Loading...". */
  predicate Coherent(s: Status) {
    s.loading ==> !s.error && s.message == "Loading..."
  }

  /** Every status operation keeps the status coherent. */
  lemma StatusStaysCoherent<T>(s: Status, on: bool, m: string, was: T, v: T)
    requires Coherent(s)
    ensures Coherent(s.Loading(on)) && Coherent(s.Cleared()) && Coherent(AfterEdit(s, was, v))
    ensures Coherent(Errored(m)) && Coherent(Succeeded(m))
  {
  }
}
