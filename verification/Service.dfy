/** The service's side of one message: decoding, path conversion and the database statements
    (src/srv/ioctl.cc, install_monitor.cc, install_manager.cc, sql_helper.cc). */
module Service {
  import opened Common
  import opened WideStrings
  import opened Paths
  import opened Store
  import opened Wire
  import Workers

  /** SqlHelper on its database. */
  class SqlHelper {
    var app: map<int, Software>
    var asset: map<Key, Asset>
    var maxSoftwareId: int

    function Abs(): Tables
      reads this
    {
      Tables(app, asset, maxSoftwareId)
    }

    /** A database as it was left on disk, before Connect. */
    constructor (app: map<int, Software>, asset: map<Key, Asset>)
      ensures Abs() == Tables(app, asset, 0)
    {
      this.app, this.asset, maxSoftwareId := app, asset, 0;
    }

    ghost function Above(n: int): set<int>
      reads this
    {
      set id | id in app && id > n
    }

    /** Connect: the generator starts from the largest id in use, or from 0. */
    method Connect(fails: bool) returns (ok: bool)
      modifies this`maxSoftwareId
      ensures ok == !fails
      ensures ok ==> forall id :: id in app ==> id <= maxSoftwareId
      ensures ok ==> maxSoftwareId in app || (maxSoftwareId == 0 && forall id :: id !in app)
      ensures !ok ==> maxSoftwareId == old(maxSoftwareId)
    {
      if fails { return false; }
      maxSoftwareId := 0;
      if first :| first in app {
        maxSoftwareId := first;
        while exists id :: id in app && id > maxSoftwareId
          invariant maxSoftwareId in app
          decreases |Above(maxSoftwareId)|
        {
          var id :| id in app && id > maxSoftwareId;
          assert id in Above(maxSoftwareId) && Above(id) <= Above(maxSoftwareId) - {id};
          SubsetSize(Above(id), Above(maxSoftwareId) - {id});
          maxSoftwareId := id;
        }
      }
      return true;
    }

    /** SelectSoftwareIdByPath; without a row the id stays what it was. */
    method SelectSoftwareIdByPath(path: Key, before: int, fails: bool) returns (ok: bool, id: int)
      ensures ok == !fails
      ensures ok && before == 0 ==> id == SelectId(Abs(), path)
    {
      id := before;
      if fails { return false, id; }
      if path in asset { id := asset[path].softwareId; }
      return true, id;
    }

    method InsertSoftware(info: Software, fault: Fault) returns (ok: bool, id: int)
      modifies this`app, this`maxSoftwareId
      ensures Abs() == InsertApp(old(Abs()), info, fault).0
      ensures (if ok then Some(id) else None) == InsertApp(old(Abs()), info, fault).1
    {
      id := 0;
      if fault == PrepareFails { return false, id; }
      maxSoftwareId := maxSoftwareId + 1;
      id := maxSoftwareId;
      if fault == ExecuteFails || id in app { return false, id; }
      app := app[id := info];
      return true, id;
    }

    method InsertAsset(path: Key, id: int, kind: int, fault: Fault) returns (ok: bool)
      modifies this`asset
      ensures (Abs(), ok) == Store.InsertAsset(old(Abs()), path, id, kind, fault)
    {
      if fault != NoFault { return false; }
      if path !in asset { asset := asset[path := Asset(id, kind)]; }
      return true;
    }
  }

  /** Rows as a coherent run leaves them on disk. */
  ghost predicate StoredCoherently(app: map<int, Software>, asset: map<Key, Asset>) {
    (forall id :: id in app ==> id > 0) && (forall k :: k in asset ==> asset[k].softwareId in app)
  }

  /** After Connect on coherent rows, or on none, the tables are coherent. */
  method Restart(db: SqlHelper)
    requires StoredCoherently(db.app, db.asset)
    modifies db`maxSoftwareId
    ensures Coherent(db.Abs())
  {
    var ok := db.Connect(false);
  }

  /** What a run leaves on disk, whatever failed in it, a restart finds coherent. */
  lemma RunsAreStoredCoherently(versions: Versions, t: Tables, steps: seq<Step>)
    requires Coherent(t)
    ensures var t' := RecordAll(versions, t, steps); StoredCoherently(t'.app, t'.asset)
  {
    RecordAllKeeps(versions, t, steps);
  }

  // ---- src/srv/install_manager.cc

  /** InsertSoftware of the install manager. */
  method InsertSoftware(db: SqlHelper, versions: Versions, processPath: WString, f: Faults)
    returns (ok: bool, id: int)
    modifies db
    ensures db.Abs() == Store.InsertSoftware(versions, old(db.Abs()), CStr(processPath), f).0
    ensures (if ok then Some(id) else None) == Store.InsertSoftware(versions, old(db.Abs()), CStr(processPath), f).1
  {
    var key := CStr(processPath);
    ok, id := db.SelectSoftwareIdByPath(key, 0, f.selectFails);
    if !ok { return false, id; }
    if id != 0 { return true, id; }

    var info := versions(key);
    if info == None { return false, id; }
    if info.value.company == MICROSOFT {
      if info.value.product == [] {
        assert !Admits(info.value) by { assert |OFFICE| > 0; }
        return false, id;
      } else if info.value.product == OFFICE {
      } else {
        return false, id;
      }
    }

    ok, id := db.InsertSoftware(info.value, f.app);
    if !ok { return false, id; }
    ok := db.InsertAsset(key, id, 0, f.image);
  }

  method InsertAsset(db: SqlHelper, path: WString, id: int, kind: int, fault: Fault) returns (ok: bool)
    modifies db
    ensures (db.Abs(), ok) == Store.InsertAsset(old(db.Abs()), CStr(path), id, kind, fault)
  {
    ok := db.InsertAsset(CStr(path), id, kind, fault);
  }

  // ---- src/srv/install_monitor.cc

  /** The converted paths of an event, if both can be converted. */
  function EntryOf(drives: DriveTable, e: Event): Option<Entry> {
    var image := ConvertFrom(drives, e.image, 0);
    var target := if e.isRegistry then ConvertRegistryPath(e.path) else ConvertFrom(drives, e.path, 0);
    if image == None || target == None then None
    else Some(Entry(CStr(image.value), CStr(target.value), if e.isRegistry then 1 else 0))
  }

  /** A path on the device of drive d, when no earlier drive has it. */
  ghost predicate OnDrive(drives: DriveTable, path: WString, d: nat, rest: WString) {
    IsFirst(drives, d, path) && path == drives[d].value + rest
  }

  lemma DriveText(drives: DriveTable, path: WString, d: nat, rest: WString)
    requires OnDrive(drives, path, d, rest)
    ensures ConvertFrom(drives, path, 0) == Some([0x41 + d, 0x3A] + rest)
  {
    PicksFirst(drives, path, d, 0);
    assert path[|drives[d].value|..] == rest;
  }

  /** A file event is entered under the drive paths of image and file, in this order, with kind 0. */
  lemma FileEntry(drives: DriveTable, e: Event, d: nat, imageRest: WString, c: nat, pathRest: WString)
    requires !e.isRegistry && OnDrive(drives, e.image, d, imageRest) && OnDrive(drives, e.path, c, pathRest)
    ensures EntryOf(drives, e)
            == Some(Entry(CStr([0x41 + d, 0x3A] + imageRest), CStr([0x41 + c, 0x3A] + pathRest), 0))
  {
    DriveText(drives, e.image, d, imageRest);
    DriveText(drives, e.path, c, pathRest);
  }

  /** A registry event is entered under the drive path of the image and the name of the key, with kind 1. */
  lemma RegistryEntry(drives: DriveTable, e: Event, d: nat, imageRest: WString, rest: WString)
    requires e.isRegistry && OnDrive(drives, e.image, d, imageRest)
    ensures e.path == Wide("\\REGISTRY\\MACHINE\\") + rest ==>
              EntryOf(drives, e)
              == Some(Entry(CStr([0x41 + d, 0x3A] + imageRest), CStr(Wide("HKEY_LOCAL_MACHINE\\") + rest), 1))
    ensures e.path == Wide("\\REGISTRY\\USER\\") + rest ==>
              EntryOf(drives, e)
              == Some(Entry(CStr([0x41 + d, 0x3A] + imageRest), CStr(Wide("HKEY_CURRENT_USER\\") + rest), 1))
  {
    DriveText(drives, e.image, d, imageRest);
    RegistryNames(rest);
  }

  /** An event is not entered exactly when its image is on no drive, or its path is on none, for a
      file, or under neither root, for a registry key. */
  lemma NotEnteredIff(drives: DriveTable, e: Event)
    ensures EntryOf(drives, e) == None
            <==> || (forall d :: 0 <= d < DRIVES ==> !Matches(drives, d, e.image))
                 || (!e.isRegistry && forall d :: 0 <= d < DRIVES ==> !Matches(drives, d, e.path))
                 || (&& e.isRegistry && !(Wide("\\REGISTRY\\MACHINE\\") <= e.path)
                     && !(Wide("\\REGISTRY\\USER\\") <= e.path))
  {
    FailsIff(drives, e.image, 0);
    FailsIff(drives, e.path, 0);
    RegistryFailsIff(e.path);
  }

  /** What one event does to the tables. */
  function Handle(versions: Versions, drives: DriveTable, t: Tables, e: Event, f: Faults): Tables {
    var entry := EntryOf(drives, e);
    if entry == None then t else Record(versions, t, entry.value, f).0
  }

  /** Only valid entries reach the tables. */
  lemma EntriesAreValid(drives: DriveTable, e: Event)
    requires EntryOf(drives, e).Some?
    ensures Workers.ValidEntry(EntryOf(drives, e).value)
  {
    ConvertedIsFileKey(drives, e.image, 0);
    if e.isRegistry {
      ConvertedIsRegistryKey(e.path);
    } else {
      ConvertedIsFileKey(drives, e.path, 0);
    }
  }

  method FileInstall(db: SqlHelper, versions: Versions, drives: DriveTable,
                     image: WString, path: WString, f: Faults)
    modifies db
    ensures db.Abs() == Handle(versions, drives, old(db.Abs()), Event(false, image, path), f)
  {
    var process := ConvertFilePath(drives, image);
    if process == None { return; }
    var target := ConvertFilePath(drives, path);
    if target == None { return; }
    var ok, id := InsertSoftware(db, versions, process.value, f);
    if !ok { return; }
    ok := InsertAsset(db, target.value, id, 0, f.target);
  }

  method RegistryInstall(db: SqlHelper, versions: Versions, drives: DriveTable,
                         image: WString, path: WString, f: Faults)
    modifies db
    ensures db.Abs() == Handle(versions, drives, old(db.Abs()), Event(true, image, path), f)
  {
    var process := ConvertFilePath(drives, image);
    if process == None { return; }
    var target := ConvertRegistryPath(path);
    if target == None { return; }
    var ok, id := InsertSoftware(db, versions, process.value, f);
    if !ok { return; }
    ok := InsertAsset(db, target.value, id, 1, f.target);
  }

  /** DoSingleResponse on a buffer that the driver has filled. */
  method DoSingleResponse(buffer: array<Byte>, db: SqlHelper, versions: Versions, drives: DriveTable, f: Faults)
    requires Readable(buffer[..])
    modifies db
    ensures db.Abs() == Handle(versions, drives, old(db.Abs()), Decode(buffer[..]), f)
  {
    var e := DecodeBuffer(buffer);
    if !e.isRegistry {
      FileInstall(db, versions, drives, e.image, e.path, f);
    } else {
      RegistryInstall(db, versions, drives, e.image, e.path, f);
    }
  }

  /** What wcsncpy drops after a NUL would not have reached the tables. */
  lemma PaddedEntry(drives: DriveTable, isRegistry: bool, image: WString, path: WString)
    ensures EntryOf(drives, Event(isRegistry, NulPadded(image), NulPadded(path)))
            == EntryOf(drives, Event(isRegistry, image, path))
  {
    ConvertPadded(drives, image, 0);
    if isRegistry {
      ConvertPaddedRegistry(path);
    } else {
      ConvertPadded(drives, path, 0);
    }
  }

  /** From the driver's event to the tables: a reader's buffer that carries an event, whatever its
      strings hold, is handled as the very event that was built. */
  lemma EndToEnd(versions: Versions, drives: DriveTable, t: Tables, f: Faults,
                 kind: Byte, image: WString, path: WString, b: seq<Byte>)
    requires |b| == MAX_MSG_SIZE && CarriesEvent(b, kind, image, path)
    ensures Readable(b)
    ensures Handle(versions, drives, t, Decode(b), f)
            == Handle(versions, drives, t, Event(kind != 0, image, path), f)
  {
    ThroughTheBuffer(kind, image, path, b);
    PaddedEntry(drives, kind != 0, image, path);
  }

  /** A buffer with type 0 is handled as a file event: it is recorded under drive paths, with kind 0. */
  lemma FileArrives(versions: Versions, drives: DriveTable, t: Tables, f: Faults, b: seq<Byte>,
                    image: WString, path: WString, d: nat, imageRest: WString, c: nat, pathRest: WString)
    requires |b| == MAX_MSG_SIZE && CarriesEvent(b, 0, image, path)
    requires OnDrive(drives, image, d, imageRest) && OnDrive(drives, path, c, pathRest)
    ensures Readable(b)
    ensures Handle(versions, drives, t, Decode(b), f)
            == Record(versions, t, Entry(CStr([0x41 + d, 0x3A] + imageRest), CStr([0x41 + c, 0x3A] + pathRest), 0), f).0
  {
    EndToEnd(versions, drives, t, f, 0, image, path, b);
    FileEntry(drives, Event(false, image, path), d, imageRest, c, pathRest);
  }

  /** A buffer with type 1 is handled as a registry event: it is recorded under the name of the key, with
      kind 1. */
  lemma RegistryArrives(versions: Versions, drives: DriveTable, t: Tables, f: Faults, b: seq<Byte>,
                        image: WString, d: nat, imageRest: WString, rest: WString)
    requires |b| == MAX_MSG_SIZE && CarriesEvent(b, 1, image, Wide("\\REGISTRY\\MACHINE\\") + rest)
    requires OnDrive(drives, image, d, imageRest)
    ensures Readable(b)
    ensures Handle(versions, drives, t, Decode(b), f)
            == Record(versions, t,
                      Entry(CStr([0x41 + d, 0x3A] + imageRest), CStr(Wide("HKEY_LOCAL_MACHINE\\") + rest), 1), f).0
  {
    var path := Wide("\\REGISTRY\\MACHINE\\") + rest;
    EndToEnd(versions, drives, t, f, 1, image, path, b);
    RegistryEntry(drives, Event(true, image, path), d, imageRest, rest);
  }
}
