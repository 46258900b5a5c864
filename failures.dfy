/**
 * What a repository call reports: success, or the exception it throws.
 * `Invalid` is the `IllegalArgumentException`; the others are the
 * `RuntimeException`s the repositories raise, told apart by their cause.
 */
module Failures {
  import opened Store

  datatype Failure =
    | Invalid(message: string)     // IllegalArgumentException: null, invalid record or blank key
    | Duplicate(message: string)   // the key is already present
    | NotFound(message: string)    // rowsAffected == 0
    | Storage(message: string)     // an SQLException, wrapped

  datatype Outcome = Success | Failed(failure: Failure)

  /** The message of a wrapped SQLException (verb is "saving", "updating" or "deleting"). */
  function StorageMessage(verb: string, entity: string, c: Constraint): string {
    "Error " + verb + " " + entity + ": " + ConstraintMessage(c)
  }

  /** A wrapped message names the violated constraint: two constraints never give the same message. */
  lemma StorageMessageNamesConstraint(verb: string, entity: string, c1: Constraint, c2: Constraint)
    ensures StorageMessage(verb, entity, c1) == StorageMessage(verb, entity, c2) <==> c1 == c2
  {
    var prefix := "Error " + verb + " " + entity + ": ";
    if StorageMessage(verb, entity, c1) == StorageMessage(verb, entity, c2) {
      assert ConstraintMessage(c1) == StorageMessage(verb, entity, c1)[|prefix|..];
      assert ConstraintMessage(c2) == StorageMessage(verb, entity, c2)[|prefix|..];
    }
  }

  /** The INSERT result as `save` reports it (entity is "dosen" or "mahasiswa"). */
  function InsertReport(res: SqlResult, entity: string): Outcome
  {
    match res
    case Violated(c) => Failed(Storage(StorageMessage("saving", entity, c)))
    case Affected(n) => if n == 0 then Failed(Storage("Gagal menyimpan data " + entity)) else Success
  }

  /** The message of a null or invalid record (entity is "dosen" or "mahasiswa"). */
  function InvalidMessage(entity: string): string {
    "Data " + entity + " tidak valid"
  }

  /** The message of a blank key on delete (keyName is "NPP" or "NIM"). */
  function BlankKeyMessage(keyName: string): string {
    keyName + " tidak boleh kosong"
  }

  /** The message of a refused duplicate key (keyName is "NPP" or "NIM"). */
  function DuplicateMessage(keyName: string, key: string): string {
    keyName + " " + key + " sudah ada dalam database"
  }

  /** The message of "rowsAffected == 0" on update and delete (keyName is "NPP" or "NIM"). */
  function NotFoundMessage(entity: string, keyName: string, key: string): string {
    "Data " + entity + " dengan " + keyName + " " + key + " tidak ditemukan"
  }

  /** The UPDATE or DELETE result as `update` / `delete` report it (verb is "updating" or "deleting"). */
  function ChangeReport(res: SqlResult, verb: string, entity: string, keyName: string, key: string): Outcome
  {
    match res
    case Violated(c) => Failed(Storage(StorageMessage(verb, entity, c)))
    case Affected(n) => if n == 0 then Failed(NotFound(NotFoundMessage(entity, keyName, key))) else Success
  }
}
