/**
 * The administrator's bulk uploads and report processing: CSV rows become
 * children or users and are inserted in slices of at most fifty, parent-
 * child CSV rows are matched to stored parents and children by lower-cased
 * email and name, and an observation processed by the administrator is
 * stored without peer-review bookkeeping or a processing-log row.
 */
module Admin {
  import opened Wrappers
  import opened Text
  import opened Tables
  import opened Database

  // ---------------------------------------------------------------- batching

  const BatchSize: nat := 50

  /** Consecutive slices of at most `size` elements, in order; the last may be shorter. */
  function Batches<T>(items: seq<T>, size: nat): seq<seq<T>>
    requires size > 0
    decreases |items|
  {
    if |items| == 0 then []
    else if |items| <= size then [items]
    else [items[..size]] + Batches(items[size..], size)
  }

  function Flatten<T>(parts: seq<seq<T>>): seq<T>
  {
    if |parts| == 0 then [] else parts[0] + Flatten(parts[1..])
  }

  /**
   * The slices put back together give the list, each slice is non-empty and
   * at most `size` long, and all but the last are exactly `size` long.
   */
  lemma {:induction false} BatchesPartition<T>(items: seq<T>, size: nat)
    requires size > 0
    ensures Flatten(Batches(items, size)) == items
    ensures forall b :: b in Batches(items, size) ==> 0 < |b| <= size
    ensures forall k :: 0 <= k < |Batches(items, size)| - 1 ==> |Batches(items, size)[k]| == size
    decreases |items|
  {
    if |items| > size {
      BatchesPartition(items[size..], size);
      var rest := Batches(items[size..], size);
      assert Batches(items, size) == [items[..size]] + rest;
      assert Batches(items, size)[1..] == rest;
      assert items == items[..size] + items[size..];
    } else if |items| > 0 {
      assert Flatten([items]) == items + Flatten([]);
    }
  }

  lemma {:induction false} FlattenSnoc<T>(parts: seq<seq<T>>, k: int)
    requires 0 <= k < |parts|
    ensures Flatten(parts[..k + 1]) == Flatten(parts[..k]) + parts[k]
  {
    if k > 0 {
      FlattenSnoc(parts[1..], k - 1);
      assert parts[..k + 1][1..] == parts[1..][..k];
      assert parts[..k][1..] == parts[1..][..k - 1];
    } else {
      assert parts[..1] == [parts[0]];
      assert parts[..1][1..] == [];
    }
  }

  /** The slicing loop `for i in range(0, len(items), 50)`, each slice `items[i:i + 50]`. */
  method SliceBatches<T>(items: seq<T>) returns (batches: seq<seq<T>>)
    ensures batches == Batches(items, BatchSize)
  {
    batches := [];
    var i := 0;
    while i < |items|
      invariant 0 <= i <= |items|
      invariant Batches(items, BatchSize) == batches + Batches(items[i..], BatchSize)
    {
      var end := if i + BatchSize < |items| then i + BatchSize else |items|;
      var rest := items[i..];
      if |rest| > BatchSize {
        assert rest[..BatchSize] == items[i..end] && rest[BatchSize..] == items[end..];
      } else {
        assert rest == items[i..end] && items[end..] == [];
      }
      batches := batches + [items[i..end]];
      i := end;
    }
  }

  // ---------------------------------------------------------------- CSV rows

  /** A parsed CSV file: its header and its rows, each row keyed by column name. */
  datatype Csv = Csv(columns: seq<string>, rows: seq<map<string, string>>)

  function Cell(row: map<string, string>, column: string): string
  {
    if column in row then row[column] else ""
  }

  /** `row.get(column, None)`: the cell when the file has that column. */
  function OptionalCell(csv: Csv, row: map<string, string>, column: string): Option<string>
  {
    if column in csv.columns then Some(Cell(row, column)) else None
  }

  predicate HasColumns(csv: Csv, required: seq<string>)
  {
    forall c :: c in required ==> c in csv.columns
  }

  /** The child row built from one CSV row; bulk-loaded children carry no organisation. */
  function ChildRecord(csv: Csv, k: nat, id: string): (c: Child)
    requires k < |csv.rows|
    ensures c.id == id && c.name == Cell(csv.rows[k], "name") && c.organizationId.None?
    ensures c.birthDate.Some? <==> "birth_date" in csv.columns
  {
    var row := csv.rows[k];
    Child(id, Cell(row, "name"), OptionalCell(csv, row, "birth_date"), OptionalCell(csv, row, "grade"), None)
  }

  /** The user row built from one CSV row: the email stripped and lower-cased, the role fixed. */
  function UserRecord(csv: Csv, k: nat, id: string, role: string): User
    requires k < |csv.rows|
  {
    var row := csv.rows[k];
    User(id, Cell(row, "name"), Lower(Strip(Cell(row, "email"))), Cell(row, "password"), role, None, None)
  }

  /**
   * A built user keeps the row's name and password, gets the fixed role, and
   * its email holds no upper-case ASCII letter and no surrounding blanks.
   */
  lemma UserRecordNormalised(csv: Csv, k: nat, id: string, role: string)
    requires k < |csv.rows|
    ensures var u := UserRecord(csv, k, id, role);
      u.id == id && u.role == role && u.name == Cell(csv.rows[k], "name") && u.password == Cell(csv.rows[k], "password") &&
      (forall i :: 0 <= i < |u.email| ==> !('A' <= u.email[i] <= 'Z')) &&
      (u.email == [] || (!IsSpace(u.email[0]) && !IsSpace(u.email[|u.email| - 1])))
  {
    var s := Strip(Cell(csv.rows[k], "email"));
    NormalisedEmail(s);
  }

  lemma NormalisedEmail(s: string)
    requires s == [] || (!IsSpace(s[0]) && !IsSpace(s[|s| - 1]))
    ensures forall i :: 0 <= i < |Lower(s)| ==> !('A' <= Lower(s)[i] <= 'Z')
    ensures Lower(s) == [] || (!IsSpace(Lower(s)[0]) && !IsSpace(Lower(s)[|s| - 1]))
  {
    forall i | 0 <= i < |s| ensures !('A' <= Lower(s)[i] <= 'Z') {
      LowerCharNormal(s[i]);
    }
    if s != [] {
      LowerCharNormal(s[0]);
      LowerCharNormal(s[|s| - 1]);
    }
  }

  /** The child rows built from the first `n` CSV rows, in order. */
  function ChildRows(csv: Csv, newId: nat -> string, n: nat): (r: seq<Child>)
    requires n <= |csv.rows|
    ensures |r| == n
  {
    if n == 0 then [] else ChildRows(csv, newId, n - 1) + [ChildRecord(csv, n - 1, newId(n - 1))]
  }

  /** The user rows built from the first `n` CSV rows, in order. */
  function UserRows(csv: Csv, newId: nat -> string, role: string, n: nat): (r: seq<User>)
    requires n <= |csv.rows|
    ensures |r| == n
  {
    if n == 0 then [] else UserRows(csv, newId, role, n - 1) + [UserRecord(csv, n - 1, newId(n - 1), role)]
  }

  /** The loop over the CSV rows building the child rows. */
  method BuildChildRows(csv: Csv, newId: nat -> string) returns (rows: seq<Child>)
    ensures rows == ChildRows(csv, newId, |csv.rows|)
  {
    rows := [];
    var k := 0;
    while k < |csv.rows|
      invariant 0 <= k <= |csv.rows|
      invariant rows == ChildRows(csv, newId, k)
    {
      rows := rows + [ChildRecord(csv, k, newId(k))];
      k := k + 1;
    }
  }

  /** The loop over the CSV rows building the user rows of one role. */
  method BuildUserRows(csv: Csv, newId: nat -> string, role: string) returns (rows: seq<User>)
    ensures rows == UserRows(csv, newId, role, |csv.rows|)
  {
    rows := [];
    var k := 0;
    while k < |csv.rows|
      invariant 0 <= k <= |csv.rows|
      invariant rows == UserRows(csv, newId, role, k)
    {
      rows := rows + [UserRecord(csv, k, newId(k), role)];
      k := k + 1;
    }
  }

  // ---------------------------------------------------------------- bulk user upload

  datatype UploadOutcome = NoFileSelected | MissingColumns | Added(count: nat) | Ignored | StoreFailed

  const ChildColumns: seq<string> := ["name"]
  const UserColumns: seq<string> := ["name", "email", "password"]

  /** The role given to the users of an upload type, if it uploads users. */
  function RoleOf(uploadType: string): Option<string>
  {
    if uploadType == "parents" then Some("Parent")
    else if uploadType == "observers" then Some("Observer")
    else None
  }

  /** The file is named, its type is known and it has the columns that type needs, so its rows are built and inserted. */
  predicate Proceeds(fileName: Option<string>, uploadType: string, csv: Csv)
  {
    fileName.Some? && fileName.value != "" &&
    ((uploadType == "children" && HasColumns(csv, ChildColumns)) ||
     (RoleOf(uploadType).Some? && HasColumns(csv, UserColumns)))
  }

  /** How many slices `n` rows are cut into. */
  function SliceCount(n: nat): nat
  {
    if n == 0 then 0 else if n <= BatchSize then 1 else 1 + SliceCount(n - BatchSize)
  }

  /**
   * How many of `count` slice inserts the store takes: all of them, or those
   * before `refusedAt`, the first insert it refuses; a store that does not
   * answer refuses the first.
   */
  function SlicesStored(count: nat, online: bool, refusedAt: Option<nat>): (k: nat)
    ensures k <= count
    ensures k < count <==> count > 0 && (!online || (refusedAt.Some? && refusedAt.value < count))
    ensures online && refusedAt.Some? && refusedAt.value < count ==> k == refusedAt.value
  {
    if !online then 0
    else if refusedAt.Some? && refusedAt.value < count then refusedAt.value
    else count
  }

  /** The rows those slices hold: the first fifty per stored slice. */
  function StoredRows(n: nat, online: bool, refusedAt: Option<nat>): nat
  {
    var k := SlicesStored(SliceCount(n), online, refusedAt) * BatchSize;
    if k < n then k else n
  }

  /** What `bulk_upload_users` does with a file of the given type. */
  function UploadDecision(fileName: Option<string>, uploadType: string, csv: Csv, online: bool, refusedAt: Option<nat>): (r: UploadOutcome)
    ensures r.Added? <==> Proceeds(fileName, uploadType, csv) && SlicesStored(SliceCount(|csv.rows|), online, refusedAt) == SliceCount(|csv.rows|)
    ensures r == StoreFailed <==> Proceeds(fileName, uploadType, csv) && SlicesStored(SliceCount(|csv.rows|), online, refusedAt) < SliceCount(|csv.rows|)
    ensures r.Added? ==> r.count == |csv.rows|
    ensures r == NoFileSelected <==> fileName.None? || fileName.value == ""
    ensures r == MissingColumns ==> !HasColumns(csv, ChildColumns) || !HasColumns(csv, UserColumns)
  {
    if fileName.None? || fileName.value == "" then NoFileSelected
    else if uploadType == "children" && !HasColumns(csv, ChildColumns) then MissingColumns
    else if uploadType != "children" && RoleOf(uploadType).None? then Ignored
    else if uploadType != "children" && !HasColumns(csv, UserColumns) then MissingColumns
    else if SlicesStored(SliceCount(|csv.rows|), online, refusedAt) == SliceCount(|csv.rows|) then Added(|csv.rows|)
    else StoreFailed
  }

  /** The slicing of `n` rows gives `SliceCount(n)` slices. */
  lemma {:induction false} BatchesCount<T>(items: seq<T>)
    ensures |Batches(items, BatchSize)| == SliceCount(|items|)
    decreases |items|
  {
    if |items| > BatchSize {
      BatchesCount(items[BatchSize..]);
    }
  }

  /** The first `k` slices hold exactly the first `50 * k` rows. */
  lemma {:induction false} BatchesPrefix<T>(items: seq<T>, k: nat)
    requires k <= |Batches(items, BatchSize)|
    ensures var m := k * BatchSize; Flatten(Batches(items, BatchSize)[..k]) == items[..if m < |items| then m else |items|]
    decreases |items|
  {
    var b := Batches(items, BatchSize);
    if k == 0 {
      assert b[..0] == [];
    } else if |items| <= BatchSize {
      assert b[..k] == [items];
      assert Flatten([items]) == items + Flatten([]);
    } else {
      var rest := items[BatchSize..];
      BatchesPrefix(rest, k - 1);
      assert b[..k][0] == items[..BatchSize];
      assert b[..k][1..] == Batches(rest, BatchSize)[..k - 1];
      var m := (k - 1) * BatchSize;
      var e := if m < |rest| then m else |rest|;
      assert items[..BatchSize] + rest[..e] == items[..BatchSize + e];
    }
  }

  /** When every slice is stored, every built row is stored. */
  lemma {:induction false} AllSlicesAllRows(n: nat, online: bool, refusedAt: Option<nat>)
    requires SlicesStored(SliceCount(n), online, refusedAt) == SliceCount(n)
    ensures StoredRows(n, online, refusedAt) == n
  {
    SliceCountCovers(n);
  }

  lemma {:induction false} SliceCountCovers(n: nat)
    ensures SliceCount(n) * BatchSize >= n
  {
    if n > BatchSize {
      SliceCountCovers(n - BatchSize);
    }
  }

  /**
   * A partial write: when the store takes the first slice of a 51- to
   * 100-row file and refuses the second, the upload reports a failure and
   * the first fifty rows stay stored.
   */
  lemma SecondSliceRefusedKeepsFirst(fileName: Option<string>, uploadType: string, csv: Csv)
    requires Proceeds(fileName, uploadType, csv)
    requires BatchSize < |csv.rows| <= 2 * BatchSize
    ensures UploadDecision(fileName, uploadType, csv, true, Some(1)) == StoreFailed
    ensures StoredRows(|csv.rows|, true, Some(1)) == BatchSize
  {
    assert SliceCount(|csv.rows|) == 2;
  }

  /**
   * `bulk_upload_users`: after the file and column checks, the built rows
   * are inserted slice by slice until the store refuses one. The rows of
   * the slices stored before that stay in the one table of the upload type,
   * in order, and the upload is reported as added only when every slice was
   * stored.
   */
  method BulkUploadUsers(db: Db, fileName: Option<string>, uploadType: string, csv: Csv, newId: nat -> string, refusedAt: Option<nat>)
    returns (outcome: UploadOutcome)
    modifies db`children, db`users
    ensures outcome == UploadDecision(fileName, uploadType, csv, db.online, refusedAt)
    ensures Proceeds(fileName, uploadType, csv) && uploadType == "children" ==>
      db.children == old(db.children) + ChildRows(csv, newId, |csv.rows|)[..StoredRows(|csv.rows|, db.online, refusedAt)] &&
      db.users == old(db.users)
    ensures Proceeds(fileName, uploadType, csv) && uploadType != "children" ==>
      db.users == old(db.users) + UserRows(csv, newId, RoleOf(uploadType).value, |csv.rows|)[..StoredRows(|csv.rows|, db.online, refusedAt)] &&
      db.children == old(db.children)
    ensures !Proceeds(fileName, uploadType, csv) ==> db.children == old(db.children) && db.users == old(db.users)
  {
    if !Proceeds(fileName, uploadType, csv) {
      outcome := UploadDecision(fileName, uploadType, csv, db.online, refusedAt);
      return;
    }
    var stored, count;
    if uploadType == "children" {
      var rows := BuildChildRows(csv, newId);
      var batches := SliceBatches(rows);
      BatchesCount(rows);
      stored := InsertChildren(db, batches, refusedAt);
      BatchesPrefix(rows, stored);
      count := |batches|;
    } else {
      var rows := BuildUserRows(csv, newId, RoleOf(uploadType).value);
      var batches := SliceBatches(rows);
      BatchesCount(rows);
      stored := InsertUsers(db, batches, refusedAt);
      BatchesPrefix(rows, stored);
      count := |batches|;
    }
    outcome := if stored == count then Added(|csv.rows|) else StoreFailed;
  }

  /** One insert per slice, in order, until the store refuses one. */
  method InsertChildren(db: Db, batches: seq<seq<Child>>, refusedAt: Option<nat>) returns (stored: nat)
    modifies db`children
    ensures stored == SlicesStored(|batches|, db.online, refusedAt)
    ensures db.children == old(db.children) + Flatten(batches[..stored])
  {
    stored := 0;
    assert batches[..0] == [];
    while stored < |batches| && db.online && refusedAt != Some(stored)
      invariant 0 <= stored <= |batches|
      invariant stored > 0 ==> db.online && (refusedAt.Some? ==> stored <= refusedAt.value)
      invariant db.children == old(db.children) + Flatten(batches[..stored])
    {
      FlattenSnoc(batches, stored);
      db.children := db.children + batches[stored];
      stored := stored + 1;
    }
  }

  /** One insert per slice, in order, until the store refuses one. */
  method InsertUsers(db: Db, batches: seq<seq<User>>, refusedAt: Option<nat>) returns (stored: nat)
    modifies db`users
    ensures stored == SlicesStored(|batches|, db.online, refusedAt)
    ensures db.users == old(db.users) + Flatten(batches[..stored])
  {
    stored := 0;
    assert batches[..0] == [];
    while stored < |batches| && db.online && refusedAt != Some(stored)
      invariant 0 <= stored <= |batches|
      invariant stored > 0 ==> db.online && (refusedAt.Some? ==> stored <= refusedAt.value)
      invariant db.users == old(db.users) + Flatten(batches[..stored])
    {
      FlattenSnoc(batches, stored);
      db.users := db.users + batches[stored];
      stored := stored + 1;
    }
  }

  // ---------------------------------------------------------------- bulk mapping upload

  /** `{key: value for key, value in pairs}`: a later pair with the same key replaces an earlier one. */
  function Lookup(pairs: seq<(string, string)>): (m: map<string, string>)
    ensures forall key :: key in m <==> exists k :: 0 <= k < |pairs| && pairs[k].0 == key
  {
    if |pairs| == 0 then map[]
    else
      var init := pairs[..|pairs| - 1];
      var last := pairs[|pairs| - 1];
      var m := Lookup(init);
      assert forall k :: 0 <= k < |init| ==> init[k] == pairs[k];
      m[last.0 := last.1]
  }

  /** The value stored for a key is that of its last pair. */
  lemma {:induction false} LookupLastWins(pairs: seq<(string, string)>, k: int)
    requires 0 <= k < |pairs|
    requires forall j :: k < j < |pairs| ==> pairs[j].0 != pairs[k].0
    ensures pairs[k].0 in Lookup(pairs) && Lookup(pairs)[pairs[k].0] == pairs[k].1
  {
    var n := |pairs| - 1;
    if k < n {
      var init := pairs[..n];
      LookupLastWins(init, k);
    }
  }

  /** Children by lower-cased name. */
  function ChildLookup(children: seq<Child>): map<string, string>
  {
    Lookup(seq(|children|, k requires 0 <= k < |children| => (Lower(children[k].name), children[k].id)))
  }

  /** Parent users (`get_parents`), in store order. */
  function ParentsOf(users: seq<User>): (r: seq<User>)
    ensures forall u :: u in r <==> u in users && u.role == "Parent"
  {
    if |users| == 0 then []
    else
      var rest := ParentsOf(users[1..]);
      assert forall u :: u in users ==> u == users[0] || u in users[1..];
      (if users[0].role == "Parent" then [users[0]] else []) + rest
  }

  /** Parents by lower-cased email. */
  function ParentLookup(parents: seq<User>): map<string, string>
  {
    Lookup(seq(|parents|, k requires 0 <= k < |parents| => (Lower(parents[k].email), parents[k].id)))
  }

  /** `d.get(key)` treated as a condition: a found, non-empty id. */
  function Found(m: map<string, string>, key: string): Option<string>
  {
    if key in m && m[key] != "" then Some(m[key]) else None
  }

  /** A CSV cell as a lookup key: stripped and lower-cased. */
  function RowKey(row: map<string, string>, column: string): string
  {
    Lower(Strip(Cell(row, column)))
  }

  /** Each row's (parent email, child name) keys, in row order. */
  function RowKeys(rows: seq<map<string, string>>): (r: seq<(string, string)>)
    ensures |r| == |rows|
  {
    seq(|rows|, k requires 0 <= k < |rows| => (RowKey(rows[k], "parent_email"), RowKey(rows[k], "child_name")))
  }

  /** The (parent, child) ids a row's keys name, when both are found. */
  function MatchRow(keys: (string, string), parents: map<string, string>, children: map<string, string>): Option<(string, string)>
  {
    var parentId := Found(parents, keys.0);
    var childId := Found(children, keys.1);
    if parentId.Some? && childId.Some? then Some((parentId.value, childId.value)) else None
  }

  /** The matched pairs of the first `n` rows, in row order. */
  function Matches(keys: seq<(string, string)>, parents: map<string, string>, children: map<string, string>, n: nat): (r: seq<(string, string)>)
    requires n <= |keys|
    ensures |r| <= n
  {
    if n == 0 then []
    else
      var m := MatchRow(keys[n - 1], parents, children);
      Matches(keys, parents, children, n - 1) + (if m.Some? then [m.value] else [])
  }

  /**
   * A pair is applied exactly when some row's parent email and child name
   * are both found with non-empty ids, and the pair is those two ids.
   */
  lemma {:induction false} MatchesMeaning(keys: seq<(string, string)>, parents: map<string, string>, children: map<string, string>, n: nat,
                                          p: (string, string))
    requires n <= |keys|
    ensures p in Matches(keys, parents, children, n) <==>
      exists k :: 0 <= k < n && keys[k].0 in parents && keys[k].1 in children &&
        parents[keys[k].0] != "" && children[keys[k].1] != "" && p == (parents[keys[k].0], children[keys[k].1])
  {
    if n > 0 {
      MatchesMeaning(keys, parents, children, n - 1, p);
      MatchRowMeaning(keys[n - 1], parents, children, p);
    }
  }

  /** A row's keys yield a pair exactly when both are found with non-empty ids, and the pair is those ids. */
  lemma MatchRowMeaning(keys: (string, string), parents: map<string, string>, children: map<string, string>, p: (string, string))
    ensures MatchRow(keys, parents, children) == Some(p) <==>
      keys.0 in parents && keys.1 in children && parents[keys.0] != "" && children[keys.1] != "" && p == (parents[keys.0], children[keys.1])
  {
  }

  /** The users after each matched parent's child is set, in order. */
  function ApplyMatches(users: seq<User>, pairs: seq<(string, string)>): (r: seq<User>)
    ensures |r| == |users|
  {
    if |pairs| == 0 then users
    else
      var last := pairs[|pairs| - 1];
      SetChildOf(ApplyMatches(users, pairs[..|pairs| - 1]), last.0, Some(last.1))
  }

  lemma ApplyMatchesSnoc(users: seq<User>, pairs: seq<(string, string)>, p: (string, string))
    ensures ApplyMatches(users, pairs + [p]) == SetChildOf(ApplyMatches(users, pairs), p.0, Some(p.1))
  {
    assert (pairs + [p])[..|pairs|] == pairs;
  }

  /** One more row: its match, if any, is applied after those of the earlier rows. */
  lemma MapStep(users: seq<User>, keys: seq<(string, string)>, i: int, parents: map<string, string>, children: map<string, string>)
    requires 0 <= i < |keys|
    ensures var m := MatchRow(keys[i], parents, children);
      var before := Matches(keys, parents, children, i);
      var after := Matches(keys, parents, children, i + 1);
      if m.Some? then
        |after| == |before| + 1 && ApplyMatches(users, after) == SetChildOf(ApplyMatches(users, before), m.value.0, Some(m.value.1))
      else
        |after| == |before| && ApplyMatches(users, after) == ApplyMatches(users, before)
  {
    var m := MatchRow(keys[i], parents, children);
    var before := Matches(keys, parents, children, i);
    if m.Some? {
      ApplyMatchesSnoc(users, before, m.value);
    } else {
      assert before + [] == before;
    }
  }

  /** A parent no row matches keeps its child. */
  lemma {:induction false} UnmatchedParentUnchanged(users: seq<User>, pairs: seq<(string, string)>, k: int)
    requires 0 <= k < |users|
    requires forall p :: p in pairs ==> p.0 != users[k].id
    ensures ApplyMatches(users, pairs)[k] == users[k]
  {
    if |pairs| > 0 {
      UnmatchedParentUnchanged(users, pairs[..|pairs| - 1], k);
      assert pairs[|pairs| - 1] in pairs;
      assert ApplyMatches(users, pairs[..|pairs| - 1])[k].id == users[k].id;
    }
  }

  datatype MappingUploadOutcome = MissingMappingColumns | ObserverMappingsAdded(count: nat) | ParentsMapped(successes: nat) | NothingDone

  const ObserverMappingColumns: seq<string> := ["observer_id", "child_id"]
  const ParentMappingColumns: seq<string> := ["parent_email", "child_name"]

  function MappingRows(csv: Csv, newId: nat -> string): (r: seq<ObserverChildMapping>)
    ensures |r| == |csv.rows|
  {
    seq(|csv.rows|, k requires 0 <= k < |csv.rows| =>
      ObserverChildMapping(newId(k), Cell(csv.rows[k], "observer_id"), Cell(csv.rows[k], "child_id")))
  }

  /**
   * `bulk_upload_mappings`. Observer-child files are inserted in one call.
   * Parent-child rows are matched against the stored parents and children
   * (none when the store fails), each match sets the parent's child, and the
   * success count is the number of matched rows.
   */
  method BulkUploadMappings(db: Db, mappingType: string, csv: Csv, newId: nat -> string) returns (outcome: MappingUploadOutcome)
    modifies db`mappings, db`users
    ensures mappingType == "observer_child" && !HasColumns(csv, ObserverMappingColumns) ==> outcome == MissingMappingColumns
    ensures mappingType == "parent_child" && !HasColumns(csv, ParentMappingColumns) ==> outcome == MissingMappingColumns
    ensures outcome.ObserverMappingsAdded? ==>
      mappingType == "observer_child" && db.mappings == old(db.mappings) + MappingRows(csv, newId) && db.users == old(db.users) &&
      outcome.count == |csv.rows|
    ensures outcome.ParentsMapped? ==>
      var parents := ParentLookup(if db.online then ParentsOf(old(db.users)) else []);
      var children := ChildLookup(if db.online then db.children else []);
      mappingType == "parent_child" && db.mappings == old(db.mappings) &&
      outcome.successes == |Matches(RowKeys(csv.rows), parents, children, |csv.rows|)| &&
      db.users == ApplyMatches(old(db.users), Matches(RowKeys(csv.rows), parents, children, |csv.rows|))
    ensures outcome == MissingMappingColumns || outcome == NothingDone ==> db.mappings == old(db.mappings) && db.users == old(db.users)
    ensures outcome.ObserverMappingsAdded? || outcome.ParentsMapped? || outcome == MissingMappingColumns || outcome == NothingDone
  {
    if mappingType == "observer_child" {
      if !HasColumns(csv, ObserverMappingColumns) {
        return MissingMappingColumns;
      }
      if !db.online {
        return NothingDone;
      }
      db.mappings := db.mappings + MappingRows(csv, newId);
      return ObserverMappingsAdded(|csv.rows|);
    }
    if mappingType != "parent_child" {
      return NothingDone;
    }
    if !HasColumns(csv, ParentMappingColumns) {
      return MissingMappingColumns;
    }
    var children := ChildLookup(if db.online then db.children else []);
    var parents := ParentLookup(if db.online then ParentsOf(db.users) else []);
    var successes := MapParents(db, RowKeys(csv.rows), parents, children);
    outcome := ParentsMapped(successes);
  }

  /** The per-row loop of the parent-child upload. */
  method MapParents(db: Db, keys: seq<(string, string)>, parents: map<string, string>, children: map<string, string>)
    returns (successes: nat)
    modifies db`users
    ensures successes == |Matches(keys, parents, children, |keys|)|
    ensures db.users == ApplyMatches(old(db.users), Matches(keys, parents, children, |keys|))
  {
    ghost var start := db.users;
    successes := 0;
    var i := 0;
    while i < |keys|
      invariant 0 <= i <= |keys|
      invariant successes == |Matches(keys, parents, children, i)|
      invariant db.users == ApplyMatches(start, Matches(keys, parents, children, i))
    {
      MapStep(start, keys, i, parents, children);
      var m := MatchRow(keys[i], parents, children);
      if m.Some? {
        db.users := SetChildOf(db.users, m.value.0, Some(m.value.1));
        successes := successes + 1;
      }
      i := i + 1;
    }
  }

  // ---------------------------------------------------------------- processing an observation

  /** What the extraction service returned, each member present or not. */
  datatype Extracted = Extracted(studentName: Option<string>, date: Option<string>, themeOfDay: Option<string>, curiositySeed: Option<string>)

  datatype Mode = Ocr(extracted: Extracted) | AudioMode

  function ChildNameOr(children: seq<Child>, id: string): string
  {
    match FindChild(children, id)
    case Some(c) => c.name
    case None => "Unknown Child"
  }

  function ObserverNameOr(users: seq<User>, id: string): string
  {
    match FindUser(users, id)
    case Some(u) => u.name
    case None => "Unknown Observer"
  }

  /**
   * The observation row the administrator's processing stores: marked as
   * processed by the administrator, with the generated report as its
   * formatted report and without peer-review bookkeeping. Text read from an
   * image may override the child's name, the date, the theme and the seed;
   * a transcript keeps the session's values and leaves theme and seed empty.
   */
  function AdminObservation(id: string, childId: string, observerId: string, users: seq<User>, children: seq<Child>,
                            sessionDate: string, now: int, filename: string, fileUrl: Option<string>, report: string, mode: Mode): (o: Observation)
    ensures o.id == id && o.studentId == childId && o.username == observerId
    ensures o.processedByAdmin && o.peer.None? && o.fullData == Parsed(Some(report))
    ensures o.observerName == ObserverNameOr(users, observerId)
    ensures mode.AudioMode? ==> o.studentName == ChildNameOr(children, childId) && o.date == sessionDate && o.themeOfDay == "" && o.curiositySeed == ""
    ensures mode.Ocr? ==> o.studentName == mode.extracted.studentName.GetOr(ChildNameOr(children, childId)) &&
                          o.date == mode.extracted.date.GetOr(sessionDate) &&
                          o.themeOfDay == mode.extracted.themeOfDay.GetOr("") &&
                          o.curiositySeed == mode.extracted.curiositySeed.GetOr("")
    ensures o.timestamp == now && o.filename == filename && o.fileUrl == fileUrl
  {
    var childName := ChildNameOr(children, childId);
    var observerName := ObserverNameOr(users, observerId);
    match mode
    case Ocr(x) =>
      Observation(id, childId, observerId, x.studentName.GetOr(childName), observerName, x.date.GetOr(sessionDate), now,
                  filename, fileUrl, Parsed(Some(report)), x.themeOfDay.GetOr(""), x.curiositySeed.GetOr(""), None, true)
    case AudioMode =>
      Observation(id, childId, observerId, childName, observerName, sessionDate, now,
                  filename, fileUrl, Parsed(Some(report)), "", "", None, true)
  }

  /** `process_observation` stores the row and nothing else: no processing-log row is written. */
  method SaveAdminObservation(db: Db, id: string, childId: string, observerId: string, sessionDate: string, now: int,
                              filename: string, fileUrl: Option<string>, report: string, mode: Mode) returns (ok: bool)
    modifies db`observations
    ensures ok == db.online
    ensures ok ==> (db.observations == old(db.observations) +
      [AdminObservation(id, childId, observerId, db.users, db.children, sessionDate, now, filename, fileUrl, report, mode)])
    ensures !ok ==> db.observations == old(db.observations)
    ensures db.log == old(db.log)
  {
    if !db.online {
      return false;
    }
    db.observations := db.observations +
      [AdminObservation(id, childId, observerId, db.users, db.children, sessionDate, now, filename, fileUrl, report, mode)];
    ok := true;
  }
}
