# Akademik: lecturers, students and their screens, in Dafny

This project models the core of *akademik*, a small JavaFX desktop
application that keeps lecturers (`Dosen`: key `npp`, name, optional phone
number) and students (`Mahasiswa`: key `nim`, name, gender, IPK grade
point average, optional advising lecturer `dosenWali`) in an embedded
SQLite database. The project proves properties about that model.

The model has four layers:

- **Records.** The `Dosen` and `Mahasiswa` records are mutable classes with
  their setters. Each has a datatype snapshot (`DosenRecord`,
  `MahasiswaRecord`) that carries the pure logic: `isValid`, the IPK
  category, `equals`, `hashCode` and `toString`.
- **Database.** The schema is a `Database` class holding two keyed tables.
  Its statements enforce the constraints in the order SQLite checks them:
  NOT NULL, then CHECK, then PRIMARY KEY, then the
  `mahasiswa.dosen_wali -> dosen.npp` foreign key, which sets the advisor
  to NULL when its lecturer is deleted (`ON DELETE SET NULL`). Queries go
  through one verified selection loop. It returns each row once, ordered
  by name (`ORDER BY nama`).
- **Repositories.** `DosenDAOImpl` and `MahasiswaDAOImpl` are classes over
  that database. Each thrown exception becomes a `Failure` value that
  carries the exact message the Java code builds.
- **View-models.** `DosenViewModel` and `MahasiswaViewModel` are classes
  whose JavaFX properties become fields. The bound flags `canSave`,
  `canUpdate` and `canDelete` become predicates. A change listener runs
  inside the setter of its field, only when the value really changes and
  in the order the listeners were registered. Every command states its
  whole outcome, case by case: the status line (`isLoading`, `hasError`,
  `statusMessage`), the form, the displayed lists and both tables.

Java `null` strings are `Option<string>` and `trim()` is modelled exactly.
Java's 32-bit `hashCode` arithmetic is written out, and IPK is a `real`.
The displayed lists are sequences of objects. Their field values are
proved to list the table's rows, each once, ordered by name.

The field listeners are registered "to clear an error when the user
types" (viewmodel/DosenViewModel.java:86-89,
viewmodel/MahasiswaViewModel.java:106-110). But `clearError()`
(viewmodel/DosenViewModel.java:287-292,
viewmodel/MahasiswaViewModel.java:374-379) empties the message whenever
nothing is loading, so an edit also wipes a success message. The model
follows the code (`UiStatus.Status.Cleared`).

## Model

| member | source | states |
|---|---|---|
| Text.TrimStartEmptyIff | app/src/main/java/akademik/dao/DosenDAOImpl.java:81 | stripping leading white characters leaves nothing exactly when all are white, and otherwise stops at a non-white character |
| Text.TrimEndPrefix | app/src/main/java/akademik/dao/DosenDAOImpl.java:81 | stripping trailing white characters leaves a prefix, empty exactly when all are white, ending in a non-white character |
| Text.TrimEmptyIff | app/src/main/java/akademik/dao/DosenDAOImpl.java:81 | `trim()` yields the empty string exactly when every character is at or below U+0020 |
| Text.BlankIff | app/src/main/java/akademik/model/Dosen.java:60-63 | a string is blank exactly when it is null or all its characters are white |
| Text.TrimIdempotent | app/src/main/java/akademik/viewmodel/DosenViewModel.java:125-126 | trimming an already trimmed value changes nothing, so the trimmed key the screen stores stays its own key |
| Text.TrimEnds | app/src/main/java/akademik/viewmodel/DosenViewModel.java:125-126 | a non-empty trimmed string starts and ends with a character above U+0020 |
| Text.ContainsIff | app/src/main/java/akademik/dao/DosenDAOImpl.java:153-157 | the containment used for `LIKE '%kw%'` holds exactly when the keyword occurs at some position |
| Text.NameLeReflexive | app/src/main/java/akademik/dao/DosenDAOImpl.java:129 | the `ORDER BY nama` order is reflexive |
| Text.NameLeTotal | app/src/main/java/akademik/dao/DosenDAOImpl.java:129 | any two names are comparable |
| Text.NameLeTransitive | app/src/main/java/akademik/dao/DosenDAOImpl.java:129 | the order is transitive |
| Text.NameLeAntisymmetric | app/src/main/java/akademik/dao/DosenDAOImpl.java:129 | names ordered both ways are equal, so the order is a total order |
| Text.ToInt32 | app/src/main/java/akademik/model/Dosen.java:82-84 | Java `int` wrap-around: the result is in the signed 32-bit range, congruent to the input modulo 2^32, and equal to it when it already fits |
| Text.StringHash | app/src/main/java/akademik/model/Dosen.java:82-84 | `String.hashCode()` is a signed 32-bit value and 0 for the empty string |
| Text.TakeUntil | app/src/main/java/akademik/model/Dosen.java:68-70 | the part before a stop character is a prefix without that character |
| Text.TakeUntilPrefix | app/src/main/java/akademik/model/Dosen.java:68-70 | reading up to the stop character gives back exactly the text written before it |
| Text.LabelKeyRoundTrip | app/src/main/java/akademik/model/Dosen.java:68-70 | a label "[key] name" gives its key back when the key has no ']' |
| DosenModel.IsValidIff | app/src/main/java/akademik/model/Dosen.java:60-63 | validity in plain terms: key and name are present and each hold a character above U+0020 |
| DosenModel.Dosen.Empty | app/src/main/java/akademik/model/Dosen.java:13-15 | `new Dosen()` has every field null |
| DosenModel.Dosen.constructor | app/src/main/java/akademik/model/Dosen.java:17-22 | the three-argument constructor stores its arguments |
| DosenModel.Dosen.WithoutNoHp | app/src/main/java/akademik/model/Dosen.java:24-26 | the two-argument constructor leaves the phone number null |
| DosenModel.Dosen.SetNpp | app/src/main/java/akademik/model/Dosen.java:42-44 | changes `npp` and nothing else |
| DosenModel.Dosen.SetNama | app/src/main/java/akademik/model/Dosen.java:46-48 | changes `nama` and nothing else |
| DosenModel.Dosen.SetNoHp | app/src/main/java/akademik/model/Dosen.java:50-52 | changes `noHp` and nothing else |
| DosenModel.Dosen.Equals | app/src/main/java/akademik/model/Dosen.java:72-79 | equal exactly when the other object is a lecturer with the same key, null keys included |
| DosenModel.Dosen.HashCode | app/src/main/java/akademik/model/Dosen.java:82-84 | the key's hash: 32-bit, and 0 for a null key |
| DosenModel.EqualsIsEquivalence | app/src/main/java/akademik/model/Dosen.java:72-79 | `equals` is reflexive, symmetric and transitive |
| DosenModel.HashCodeConsistent | app/src/main/java/akademik/model/Dosen.java:72-84 | equal lecturers have equal hash codes |
| DosenModel.ToStringShowsKey | app/src/main/java/akademik/model/Dosen.java:68-70 | `toString()` (`Dosen.ToString`) labels a lecturer "[npp] nama", with a null field printed as "null": the bracket gives back the npp, or "null" when it is null |
| MahasiswaModel.IsValidIff | app/src/main/java/akademik/model/Mahasiswa.java:84-104 | validity in plain terms, with `GENDER_LAKI` and `GENDER_PEREMPUAN` written out; the advisor plays no part |
| MahasiswaModel.IpkBoundaries | app/src/main/java/akademik/model/Mahasiswa.java:102-104 | the IPK bounds are inclusive: 0.0 and 4.0 pass, anything outside makes the record invalid |
| MahasiswaModel.PrestasiKategori | app/src/main/java/akademik/model/Mahasiswa.java:110-116 | each of the five categories holds exactly on its IPK interval, with thresholds 3.5, 3.0, 2.5 and 2.0 |
| MahasiswaModel.Rank | app/src/main/java/akademik/model/Mahasiswa.java:110-116 | a category's position in the list of categories |
| MahasiswaModel.PrestasiMonotone | app/src/main/java/akademik/model/Mahasiswa.java:110-116 | a higher IPK never earns a lower category |
| MahasiswaModel.Mahasiswa.Empty | app/src/main/java/akademik/model/Mahasiswa.java:19-21 | `new Mahasiswa()`: null strings and IPK 0.0 |
| MahasiswaModel.Mahasiswa.constructor | app/src/main/java/akademik/model/Mahasiswa.java:23-30 | the five-argument constructor stores its arguments |
| MahasiswaModel.Mahasiswa.WithoutDosenWali | app/src/main/java/akademik/model/Mahasiswa.java:32-34 | the four-argument constructor leaves the advisor null |
| MahasiswaModel.Mahasiswa.SetNim | app/src/main/java/akademik/model/Mahasiswa.java:58-60 | changes `nim` and nothing else |
| MahasiswaModel.Mahasiswa.SetNama | app/src/main/java/akademik/model/Mahasiswa.java:62-64 | changes `nama` and nothing else |
| MahasiswaModel.Mahasiswa.SetGender | app/src/main/java/akademik/model/Mahasiswa.java:66-68 | changes `gender` and nothing else |
| MahasiswaModel.Mahasiswa.SetIpk | app/src/main/java/akademik/model/Mahasiswa.java:70-72 | changes `ipk` and nothing else |
| MahasiswaModel.Mahasiswa.SetDosenWali | app/src/main/java/akademik/model/Mahasiswa.java:74-76 | changes `dosenWali` and nothing else |
| MahasiswaModel.Mahasiswa.GetPrestasiKategori | app/src/main/java/akademik/model/Mahasiswa.java:110-116 | the category of this student's IPK |
| MahasiswaModel.Mahasiswa.Equals | app/src/main/java/akademik/model/Mahasiswa.java:126-132 | equal exactly when the other object is a student with the same key, null keys included |
| MahasiswaModel.Mahasiswa.HashCode | app/src/main/java/akademik/model/Mahasiswa.java:135-137 | the key's hash: 32-bit, and 0 for a null key |
| MahasiswaModel.EqualsIsEquivalence | app/src/main/java/akademik/model/Mahasiswa.java:126-132 | `equals` is reflexive, symmetric and transitive |
| MahasiswaModel.HashCodeConsistent | app/src/main/java/akademik/model/Mahasiswa.java:126-137 | equal students have equal hash codes |
| MahasiswaModel.ToStringShowsKey | app/src/main/java/akademik/model/Mahasiswa.java:121-123 | `toString()` (`Mahasiswa.ToString`) labels a student "[nim] nama", with a null field printed as "null": the bracket gives back the nim, or "null" when it is null |
| Store.ColumnViolation | app/src/main/java/akademik/database/DatabaseConnection.java:102-106 | a `mahasiswa` row passes its column constraints exactly when key, name and gender are present, the gender is one of the two constants and the IPK lies in [0, 4]; NOT NULL is reported exactly when a column is null, and only NOT NULL or CHECK is ever reported |
| Store.MahasiswaViolation | app/src/main/java/akademik/database/DatabaseConnection.java:102-109 | a `mahasiswa` row passes every NOT NULL, CHECK and foreign-key constraint exactly when no violation is reported; FOREIGN KEY is reported exactly when the columns pass and the advisor names an absent lecturer |
| Store.ClearDosenWali | app/src/main/java/akademik/database/DatabaseConnection.java:108 | `ON DELETE SET NULL`: the same student keys; no student is left advised by the deleted lecturer; only the advisor column can change, never to a new lecturer; students with another advisor or none are untouched |
| Store.DeleteKeepsRecordsValid | app/src/main/java/akademik/database/DatabaseConnection.java:108 | clearing advisors after a lecturer's deletion keeps every remaining row valid |
| Store.Database.constructor | app/src/main/java/akademik/database/DatabaseConnection.java:84-113 | a freshly created database has two empty tables that satisfy the schema |
| Store.Database.InsertDosen | app/src/main/java/akademik/dao/DosenDAOImpl.java:34-41 | NOT NULL, then PRIMARY KEY, else one row added under its key; the schema is kept and students are untouched |
| Store.Database.UpdateDosen | app/src/main/java/akademik/dao/DosenDAOImpl.java:60-67 | no row for the key gives 0 rows; a null name violates NOT NULL; otherwise the row is replaced |
| Store.Database.DeleteDosen | app/src/main/java/akademik/dao/DosenDAOImpl.java:85-90 | 1 row removed exactly when the key is present, with the SET NULL cascade on students |
| Store.Database.InsertMahasiswa | app/src/main/java/akademik/dao/MahasiswaDAOImpl.java:34-43 | NOT NULL and CHECK first, then PRIMARY KEY, then FOREIGN KEY, else one row added under its key; the schema is kept and lecturers are untouched |
| Store.Database.UpdateMahasiswa | app/src/main/java/akademik/dao/MahasiswaDAOImpl.java:62-71 | 0 rows for an absent key, the schema's violation if any, else the row replaced |
| Store.Database.DeleteMahasiswa | app/src/main/java/akademik/dao/MahasiswaDAOImpl.java:89-94 | 1 row removed exactly when the key is present; lecturers untouched |
| Store.LeastExists | app/src/main/java/akademik/dao/DosenDAOImpl.java:129 | every non-empty set of rows has one with the least name |
| Store.SelectStepLists | app/src/main/java/akademik/dao/DosenDAOImpl.java:129-136 | appending a pending row keeps "each taken row once, under its key" |
| Store.SelectStepOrder | app/src/main/java/akademik/dao/DosenDAOImpl.java:129-136 | appending the least pending row keeps the result ordered and below every pending row |
| Store.SelectStep | app/src/main/java/akademik/dao/DosenDAOImpl.java:129-136 | one step of the selection loop keeps its whole invariant |
| Store.Select | app/src/main/java/akademik/dao/MahasiswaDAOImpl.java:133-140 | `SELECT * ... ORDER BY nama`: every row of the table exactly once, nothing else, ordered by name |
| Failures.StorageMessageNamesConstraint | app/src/main/java/akademik/dao/DosenDAOImpl.java:48-50 | the wrapped "Error saving ...: " message tells the violated constraints apart: two messages agree exactly when the constraints do |
| Store.NameLikeOccurs | app/src/main/java/akademik/dao/DosenDAOImpl.java:153-157 | `WHERE nama LIKE '%kw%'` (shared with `MahasiswaDAOImpl.java:209`) keeps a row exactly when its name is not NULL and the keyword occurs in it at some position |
| DosenDao.DosenDaoImpl.constructor | app/src/main/java/akademik/dao/DosenDAOImpl.java:18-20 | the repository works on the shared database |
| DosenDao.DosenDaoImpl.Save | app/src/main/java/akademik/dao/DosenDAOImpl.java:23-51 | null or invalid is refused; a present key gives "NPP k sudah ada dalam database"; otherwise the row is inserted and the count grows by one; valid rows stay valid |
| DosenDao.DosenDaoImpl.Update | app/src/main/java/akademik/dao/DosenDAOImpl.java:54-77 | null or invalid is refused; an absent key is "not found"; otherwise the row becomes the object's fields |
| DosenDao.DosenDaoImpl.Delete | app/src/main/java/akademik/dao/DosenDAOImpl.java:80-100 | a blank key is refused; an absent key is "not found"; otherwise the row goes, the count drops by one and its students lose their advisor |
| DosenDao.DosenDaoImpl.FindByNpp | app/src/main/java/akademik/dao/DosenDAOImpl.java:103-124 | null exactly for a blank or absent key, else a fresh object with the row's fields |
| DosenDao.DosenDaoImpl.MapRows | app/src/main/java/akademik/dao/DosenDAOImpl.java:219-225 | one new, distinct object per result row, in order, with that row's fields |
| DosenDao.DosenDaoImpl.FindAll | app/src/main/java/akademik/dao/DosenDAOImpl.java:127-143 | every lecturer exactly once, ordered by name, as new objects |
| DosenDao.DosenDaoImpl.FindByNama | app/src/main/java/akademik/dao/DosenDAOImpl.java:146-169 | a blank keyword gives an empty list, otherwise exactly the lecturers whose name contains it, ordered by name |
| DosenDao.DosenDaoImpl.ExistsByNpp | app/src/main/java/akademik/dao/DosenDAOImpl.java:172-193 | true exactly when the key is not blank and a row has it |
| DosenDao.DosenDaoImpl.ExistsAgreesWithFind | app/src/main/java/akademik/dao/DosenDAOImpl.java:103-193 | `existsByNpp` and `findByNpp` agree on every key, and a found lecturer carries that key |
| DosenDao.DosenDaoImpl.SaveThenFind | app/src/main/java/akademik/util/DatabaseTester.java:73-80 | a save succeeds exactly for a valid record with a new key, and then `findByNpp` returns the same fields |
| DosenDao.DosenDaoImpl.Count | app/src/main/java/akademik/dao/DosenDAOImpl.java:196-211 | the number of rows |
| MahasiswaDao.ValidViolatesOnlyForeignKey | app/src/main/java/akademik/database/DatabaseConnection.java:102-109 | a record passing `isValid()` breaks no constraint except the foreign key, and breaks that exactly when its advisor dangles |
| MahasiswaDao.CascadeEmptiesAdvisees | app/src/main/java/akademik/dao/MahasiswaDAOImpl.java:150-173 | after deleting a lecturer, `findByDosenWali` finds nobody for that lecturer and exactly the same students for every other one |
| MahasiswaDao.GenderPartition | app/src/main/java/akademik/dao/MahasiswaDAOImpl.java:176-199 | under the CHECK constraint, `findByGender` for the two constants splits the students: each is found by exactly one |
| MahasiswaDao.MahasiswaDaoImpl.constructor | app/src/main/java/akademik/dao/MahasiswaDAOImpl.java:18-20 | the repository works on the shared database |
| MahasiswaDao.MahasiswaDaoImpl.Save | app/src/main/java/akademik/dao/MahasiswaDAOImpl.java:23-53 | null or invalid is refused; a present key is a duplicate; a dangling advisor is a wrapped FOREIGN KEY failure; otherwise the row is inserted and the count grows by one |
| MahasiswaDao.MahasiswaDaoImpl.Update | app/src/main/java/akademik/dao/MahasiswaDAOImpl.java:56-81 | null or invalid is refused; an absent key is "not found"; a dangling advisor is a wrapped FOREIGN KEY failure; otherwise the row becomes the object's fields |
| MahasiswaDao.MahasiswaDaoImpl.Delete | app/src/main/java/akademik/dao/MahasiswaDAOImpl.java:84-104 | a blank key is refused; an absent key is "not found"; otherwise exactly that row goes |
| MahasiswaDao.MahasiswaDaoImpl.FindByNim | app/src/main/java/akademik/dao/MahasiswaDAOImpl.java:107-128 | null exactly for a blank or absent key, else a fresh object with the row's fields |
| MahasiswaDao.MahasiswaDaoImpl.MapRows | app/src/main/java/akademik/dao/MahasiswaDAOImpl.java:275-283 | one new, distinct object per result row, in order, with that row's fields |
| MahasiswaDao.MahasiswaDaoImpl.FindAll | app/src/main/java/akademik/dao/MahasiswaDAOImpl.java:131-147 | every student exactly once, ordered by name, as new objects |
| MahasiswaDao.MahasiswaDaoImpl.FindByDosenWali | app/src/main/java/akademik/dao/MahasiswaDAOImpl.java:150-173 | a blank key gives an empty list, otherwise exactly the students with that advisor, ordered by name |
| MahasiswaDao.MahasiswaDaoImpl.FindByGender | app/src/main/java/akademik/dao/MahasiswaDAOImpl.java:176-199 | a blank value gives an empty list, otherwise exactly the students of that gender, ordered by name |
| MahasiswaDao.MahasiswaDaoImpl.FindByNama | app/src/main/java/akademik/dao/MahasiswaDAOImpl.java:202-225 | a blank keyword gives an empty list, otherwise exactly the students whose name contains it, ordered by name |
| MahasiswaDao.MahasiswaDaoImpl.ExistsByNim | app/src/main/java/akademik/dao/MahasiswaDAOImpl.java:228-249 | true exactly when the key is not blank and a row has it |
| MahasiswaDao.MahasiswaDaoImpl.ExistsAgreesWithFind | app/src/main/java/akademik/dao/MahasiswaDAOImpl.java:107-249 | `existsByNim` and `findByNim` agree on every key, and a found student carries that key |
| MahasiswaDao.MahasiswaDaoImpl.SaveThenFind | app/src/main/java/akademik/util/DatabaseTester.java:122-131 | a save succeeds exactly for a valid record with a new key and an existing or absent advisor, and then `findByNim` returns the same fields |
| MahasiswaDao.MahasiswaDaoImpl.Count | app/src/main/java/akademik/dao/MahasiswaDAOImpl.java:252-267 | the number of rows |
| UiStatus.StatusStaysCoherent | app/src/main/java/akademik/viewmodel/DosenViewModel.java:258-292 | `setLoading`, `clearError`, a `clearError` listener, `setError` and `setSuccess` all keep the status coherent: while loading there is no error and the label reads "Loading..." |
| DosenVm.Optional | app/src/main/java/akademik/viewmodel/DosenViewModel.java:125-126 | a form field as an optional column: null exactly when blank, else trimmed and non-empty |
| DosenVm.ValidationError | app/src/main/java/akademik/viewmodel/DosenViewModel.java:236-253 | each of the three messages is reported exactly when its check is the first to fail, and none exactly when all pass |
| DosenVm.ValidatedRecordIsValid | app/src/main/java/akademik/viewmodel/DosenViewModel.java:114-128 | a form that passes `validateInput()` builds a record `isValid()` accepts, keyed by the trimmed NPP of at least 3 characters |
| DosenVm.BlankNppPassesCanSaveOnly | app/src/main/java/akademik/viewmodel/DosenViewModel.java:60-65 | a whitespace-only NPP enables the save button but is stopped by `validateInput()` |
| DosenVm.DosenViewModel.constructor | app/src/main/java/akademik/viewmodel/DosenViewModel.java:46-53 | an empty form and the full lecturer list ordered by name; the message stays "Loading..." |
| DosenVm.DosenViewModel.SetLoading | app/src/main/java/akademik/viewmodel/DosenViewModel.java:258-264 | the status of `setLoading`; form and list untouched |
| DosenVm.DosenViewModel.SetError | app/src/main/java/akademik/viewmodel/DosenViewModel.java:269-273 | an error status; form and list untouched |
| DosenVm.DosenViewModel.SetSuccess | app/src/main/java/akademik/viewmodel/DosenViewModel.java:278-282 | a success status; form and list untouched |
| DosenVm.DosenViewModel.ClearError | app/src/main/java/akademik/viewmodel/DosenViewModel.java:287-292 | the cleared status; form and list untouched |
| DosenVm.DosenViewModel.SetNpp | app/src/main/java/akademik/viewmodel/DosenViewModel.java:87-96 | `npp.set(v)`: on a change, the status is cleared, then becomes "NPP minimal 3 karakter" for a non-blank value under 3 characters |
| DosenVm.DosenViewModel.SetNama | app/src/main/java/akademik/viewmodel/DosenViewModel.java:88 | `nama.set(v)`: the status is cleared only on a change |
| DosenVm.DosenViewModel.SetNoHp | app/src/main/java/akademik/viewmodel/DosenViewModel.java:89 | `noHp.set(v)`: the status is cleared only on a change |
| DosenVm.DosenViewModel.ValidateInput | app/src/main/java/akademik/viewmodel/DosenViewModel.java:236-253 | true exactly when no check fails, else the first failure becomes the error status |
| DosenVm.DosenViewModel.LoadAllDosen | app/src/main/java/akademik/viewmodel/DosenViewModel.java:209-220 | the list becomes every lecturer once, ordered by name; the message ends as "Loading..." |
| DosenVm.DosenViewModel.ClearForm | app/src/main/java/akademik/viewmodel/DosenViewModel.java:225-231 | an empty form, no selection, not editing; the status is cleared when some field was non-empty |
| DosenVm.DosenViewModel.SelectDosen | app/src/main/java/akademik/viewmodel/DosenViewModel.java:389-405 | a lecturer fills the form in editing mode, null clears it; the error flag ends false |
| DosenVm.DosenViewModel.Begin | app/src/main/java/akademik/viewmodel/DosenViewModel.java:109-110 | a command's start leaves the status loading, without error |
| DosenVm.DosenViewModel.Fail | app/src/main/java/akademik/viewmodel/DosenViewModel.java:135-139 | a caught failure and the `finally` leave the error status |
| DosenVm.DosenViewModel.Report | app/src/main/java/akademik/viewmodel/DosenViewModel.java:132-139 | after a reload: empty form and the success status; the list is kept |
| DosenVm.DosenViewModel.Finish | app/src/main/java/akademik/viewmodel/DosenViewModel.java:131-139 | a command that succeeded ends with the reloaded list, an empty form and the success status |
| DosenVm.DosenViewModel.SaveCommand | app/src/main/java/akademik/viewmodel/DosenViewModel.java:104-140 | no-op unless `canSave`; otherwise the first validation error, the duplicate (untrimmed key), the repository's duplicate (trimmed key), or the trimmed record stored with reloaded list, empty form and "Data dosen berhasil disimpan!" |
| DosenVm.DosenViewModel.SubmitSave | app/src/main/java/akademik/viewmodel/DosenViewModel.java:118-139 | the duplicate checks and the insert of `saveCommand` after validation |
| DosenVm.DosenViewModel.EditSelected | app/src/main/java/akademik/viewmodel/DosenViewModel.java:160-162 | the selected object gets the trimmed name and the optional phone number |
| DosenVm.DosenViewModel.SubmitUpdate | app/src/main/java/akademik/viewmodel/DosenViewModel.java:160-175 | the edited object is refused as invalid, reported not found, or stored with reloaded list and success status |
| DosenVm.DosenViewModel.UpdateCommand | app/src/main/java/akademik/viewmodel/DosenViewModel.java:145-176 | no-op unless `canUpdate`; the selected object itself is edited in place before storage; every outcome's status, form and tables |
| DosenVm.DosenViewModel.DeleteCommand | app/src/main/java/akademik/viewmodel/DosenViewModel.java:181-202 | no-op unless `canDelete`; a blank or absent key is an error; otherwise the row goes, its students lose their advisor, the list is reloaded and "Data dosen berhasil dihapus!" shown |
| DosenVm.Flags | app/src/main/java/akademik/viewmodel/DosenViewModel.java:58-80 | save and update are never enabled together, update implies delete, nothing is enabled while loading |
| MahasiswaVm.AdvisorColumn | app/src/main/java/akademik/viewmodel/MahasiswaViewModel.java:157 | the advisor field round-trips through the column (`selectMahasiswa` reads null back as "", line 260), and an empty field is stored as null, never as "" |
| MahasiswaVm.ValidationError | app/src/main/java/akademik/viewmodel/MahasiswaViewModel.java:325-352 | each of the five messages is reported exactly when its check is the first to fail; IPK must be in (0.0, 4.0] |
| MahasiswaVm.ValidatedRecordIsValidIff | app/src/main/java/akademik/viewmodel/MahasiswaViewModel.java:141-160 | a validated form builds a valid record exactly when the gender is one of the two constants |
| MahasiswaVm.ZeroIpkNeverSaved | app/src/main/java/akademik/viewmodel/MahasiswaViewModel.java:341-344 | IPK 0.0 never passes the screen's validation although the record's `isValidIpk()` accepts it |
| MahasiswaVm.MahasiswaViewModel.constructor | app/src/main/java/akademik/viewmodel/MahasiswaViewModel.java:55-64 | an empty form and both lists loaded and ordered by name |
| MahasiswaVm.MahasiswaViewModel.SetLoading | app/src/main/java/akademik/viewmodel/MahasiswaViewModel.java:354-360 | the status of `setLoading`; form and lists untouched |
| MahasiswaVm.MahasiswaViewModel.SetError | app/src/main/java/akademik/viewmodel/MahasiswaViewModel.java:362-366 | an error status; form and lists untouched |
| MahasiswaVm.MahasiswaViewModel.SetSuccess | app/src/main/java/akademik/viewmodel/MahasiswaViewModel.java:368-372 | a success status; form and lists untouched |
| MahasiswaVm.MahasiswaViewModel.ClearError | app/src/main/java/akademik/viewmodel/MahasiswaViewModel.java:374-379 | the cleared status; form and lists untouched |
| MahasiswaVm.MahasiswaViewModel.SetNim | app/src/main/java/akademik/viewmodel/MahasiswaViewModel.java:107-117 | `nim.set(v)`: on a change, cleared, then "NIM minimal 6 karakter" for a non-blank value under 6 characters |
| MahasiswaVm.MahasiswaViewModel.SetNama | app/src/main/java/akademik/viewmodel/MahasiswaViewModel.java:108 | `nama.set(v)`: the status is cleared only on a change |
| MahasiswaVm.MahasiswaViewModel.SetGender | app/src/main/java/akademik/viewmodel/MahasiswaViewModel.java:109 | `gender.set(v)`: the status is cleared only on a change |
| MahasiswaVm.MahasiswaViewModel.SetIpk | app/src/main/java/akademik/viewmodel/MahasiswaViewModel.java:110-124 | `ipk.set(v)`: on a change, cleared, then "IPK harus antara 0.0 - 4.0" outside [0.0, 4.0] |
| MahasiswaVm.MahasiswaViewModel.SetDosenWali | app/src/main/java/akademik/viewmodel/MahasiswaViewModel.java:40 | `dosenWali.set(v)` has no listener: the status is untouched |
| MahasiswaVm.MahasiswaViewModel.SetIpkFromString | app/src/main/java/akademik/viewmodel/MahasiswaViewModel.java:273-284 | blank text sets 0.0; unparsable text is an error and leaves IPK; a number is set through the IPK listeners |
| MahasiswaVm.MahasiswaViewModel.ValidateInput | app/src/main/java/akademik/viewmodel/MahasiswaViewModel.java:325-352 | true exactly when no check fails, else the first failure becomes the error status |
| MahasiswaVm.MahasiswaViewModel.LoadAllMahasiswa | app/src/main/java/akademik/viewmodel/MahasiswaViewModel.java:293-304 | the student list becomes every student once, ordered by name; the message ends as "Loading..." |
| MahasiswaVm.MahasiswaViewModel.LoadAllDosen | app/src/main/java/akademik/viewmodel/MahasiswaViewModel.java:306-313 | the advisor choices become every lecturer once, ordered by name; the status is untouched |
| MahasiswaVm.MahasiswaViewModel.LoadAllData | app/src/main/java/akademik/viewmodel/MahasiswaViewModel.java:288-291 | both lists loaded |
| MahasiswaVm.MahasiswaViewModel.ClearForm | app/src/main/java/akademik/viewmodel/MahasiswaViewModel.java:315-323 | an empty form with IPK 0.0, no selection; the status is cleared when a listened field changed |
| MahasiswaVm.MahasiswaViewModel.ClearCommand | app/src/main/java/akademik/viewmodel/MahasiswaViewModel.java:236-239 | an empty form and a cleared status |
| MahasiswaVm.MahasiswaViewModel.RefreshCommand | app/src/main/java/akademik/viewmodel/MahasiswaViewModel.java:244-247 | both lists reloaded and "Data berhasil di-refresh!" shown; form untouched |
| MahasiswaVm.MahasiswaViewModel.Announce | app/src/main/java/akademik/viewmodel/MahasiswaViewModel.java:246 | the success message after loading keeps both lists loaded |
| MahasiswaVm.MahasiswaViewModel.SelectMahasiswa | app/src/main/java/akademik/viewmodel/MahasiswaViewModel.java:252-268 | a student fills the form in editing mode, null clears it; the error flag ends false |
| MahasiswaVm.MahasiswaViewModel.Begin | app/src/main/java/akademik/viewmodel/MahasiswaViewModel.java:137-138 | a command's start leaves the status loading, without error |
| MahasiswaVm.MahasiswaViewModel.Fail | app/src/main/java/akademik/viewmodel/MahasiswaViewModel.java:166-170 | a caught failure and the `finally` leave the error status |
| MahasiswaVm.MahasiswaViewModel.Report | app/src/main/java/akademik/viewmodel/MahasiswaViewModel.java:163-170 | after a reload: empty form and the success status; the lists are kept |
| MahasiswaVm.MahasiswaViewModel.Finish | app/src/main/java/akademik/viewmodel/MahasiswaViewModel.java:162-170 | a command that succeeded ends with the reloaded student list, an empty form and the success status |
| MahasiswaVm.MahasiswaViewModel.SubmitSave | app/src/main/java/akademik/viewmodel/MahasiswaViewModel.java:145-170 | the duplicate check, the record built from the form, and every repository outcome |
| MahasiswaVm.MahasiswaViewModel.SaveCommand | app/src/main/java/akademik/viewmodel/MahasiswaViewModel.java:132-171 | no-op unless `canSave`; the first validation error, a duplicate, an invalid gender, a dangling advisor, or the record stored with reloaded list and success status |
| MahasiswaVm.MahasiswaViewModel.EditSelected | app/src/main/java/akademik/viewmodel/MahasiswaViewModel.java:189-193 | the selected object gets the trimmed name, the gender, the IPK and the advisor column |
| MahasiswaVm.MahasiswaViewModel.SubmitUpdate | app/src/main/java/akademik/viewmodel/MahasiswaViewModel.java:189-205 | the edited object is refused as invalid, reported not found or dangling, or stored with reloaded list and success status |
| MahasiswaVm.MahasiswaViewModel.UpdateCommand | app/src/main/java/akademik/viewmodel/MahasiswaViewModel.java:176-206 | no-op unless `canUpdate`; the selected object itself is edited in place before storage; every outcome's status, form and tables |
| MahasiswaVm.MahasiswaViewModel.DeleteCommand | app/src/main/java/akademik/viewmodel/MahasiswaViewModel.java:211-231 | no-op unless `canDelete`; a blank or absent key is an error; otherwise exactly that row goes and the list is reloaded |
| MahasiswaVm.Flags | app/src/main/java/akademik/viewmodel/MahasiswaViewModel.java:69-96 | save and update never together, update implies delete, nothing while loading, and IPK 0.0 disables save and update |

## Left out

- The JDBC connection, the singleton `DatabaseConnection` and its file I/O are not modelled. A `Database` object is passed to the repositories' constructors instead of being fetched from the singleton.
- SQL exceptions that do not come from a constraint (disk, locking, a closed connection), and so the error paths of the queries and of the list loads, are not modelled.
- The text of an SQL exception is reduced to the gist of SQLite's message for the violated constraint (`Store.ConstraintMessage`).
- `LIKE` is modelled as case-sensitive substring containment: `%` and `_` inside the keyword, and SQLite's ASCII case folding for `LIKE`, are not modelled.
- The order of rows with equal names is left open, as SQLite leaves it.
- String lengths and `hashCode` count Dafny characters. Java counts UTF-16 code units, which differ only outside the Basic Multilingual Plane.
- DosenVm.DosenViewModel.SelectDosen: a null key or name copied into the form is modelled as the empty string. Java stores null; a later `trim()` then throws, and the command reports that exception as an error message.
- MahasiswaVm.MahasiswaViewModel.SelectMahasiswa: a null key, name or gender copied into the form is modelled as the empty string, for the same reason.
- MahasiswaVm.MahasiswaViewModel.SetIpkFromString: `Double.parseDouble` is the `parsed` parameter (None when it throws). NaN and infinities are not modelled, since IPK is a `real`.
- The `ipkText` binding (`"%.2f"` formatting), logging to the console, the JavaFX views, the application class and the database test utility are not modelled. The test utility's save-then-find scenarios are restated as `SaveThenFind`.
- Store.Database.InsertDosen: a NULL `npp` is reported as a NOT NULL violation. SQLite would store the row, because a `TEXT PRIMARY KEY` of an ordinary table admits NULL; the tables are keyed by non-null strings, so such a row cannot be held. The repositories never issue this statement, since `isValid()` refuses a null key first.
- Store.Database.InsertMahasiswa: a NULL `nim` is reported as a NOT NULL violation, where SQLite would store the row, for the same reason.
- Store.MahasiswaViolation: counts a NULL `nim` as a NOT NULL violation (through `Store.ColumnViolation`), although the schema's `nim TEXT PRIMARY KEY` admits NULL; no stored row or repository call has a null key.
- The check-then-insert race between `existsByNpp`/`existsByNim` and the insert is not modelled, because the model is single-threaded.
