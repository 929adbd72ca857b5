/** The directory of photos: what Save and Remove do to it, fault by fault. */
module PhotoStore {
  import opened PhotoProtocol

  type Bytes = seq<bv8>

  const KEY_LENGTH := 26

  predicate ValidKey(key: string) {
    |key| == KEY_LENGTH && forall c <- key :: 'a' <= c <= 'z' || '2' <= c <= '7'
  }

  /** Keys are 26 letters of the lower-case base32 alphabet, so none can name anything outside the directory. */
  lemma KeysAreNames(key: string)
    ensures ValidKey(key) <==> |key| == 26 && forall c <- key :: c in "abcdefghijklmnopqrstuvwxyz234567"
    ensures ValidKey(key) ==> '/' !in key && '.' !in key
  {
    forall c: char ensures 'a' <= c <= 'z' || '2' <= c <= '7' <==> c in "abcdefghijklmnopqrstuvwxyz234567" {
      InAlphabet(c);
    }
  }

  lemma InAlphabet(c: char)
    ensures 'a' <= c <= 'z' || '2' <= c <= '7' <==> c in "abcdefghijklmnopqrstuvwxyz234567"
  {
    var letters := "abcdefghijklmnopqrstuvwxyz234567";
    assert forall i | 0 <= i < 26 :: letters[i] == ('a' as int + i) as char;
    assert forall i | 26 <= i < 32 :: letters[i] == ('2' as int + (i - 26)) as char;
    if 'a' <= c <= 'z' {
      assert letters[c as int - 'a' as int] == c;
    } else if '2' <= c <= '7' {
      assert letters[26 + (c as int - '2' as int)] == c;
    }
  }

  /** The first thing that goes wrong in a Save. */
  datatype Fault =
    | NoFault | CreateTemp | Write | SyncFile | CloseFile | Chmod | Rename | OpenDir | SyncDirectory | CloseDir
  {
    predicate BeforeRename() {
      CreateTemp? || Write? || SyncFile? || CloseFile? || Chmod? || Rename?
    }
  }

  /** What a Save leaves behind in the directory. */
  function AfterSave(disk: Disk, key: Key, fault: Fault): Disk {
    if fault.BeforeRename() then disk
    else if fault.OpenDir? || fault.SyncDirectory? then disk.Rename(key)
    else disk.Rename(key).Sync()
  }

  class Store {
    var disk: Disk
    var contents: map<Key, Bytes>
    var temps: set<nat>  // temporary files, by number

    ghost predicate Valid()
      reads this
    {
      contents.Keys == disk.files
    }

    constructor ()
      ensures Valid() && disk == Disk({}, {}, {}) && temps == {}
    {
      disk, contents, temps := Disk({}, {}, {}), map[], {};
    }

    method Cleanup(tmp: nat, works: bool)
      modifies this`temps
      ensures temps == if works then old(temps) - {tmp} else old(temps)
    {
      if works {
        temps := temps - {tmp};
      }
    }

    /**
     Writes `jpeg` under `key`: all of it or none of it, and never a name before the
     bytes. Success means the name is synced; a failure after the rename leaves the file.
     */
    method Save(key: Key, jpeg: Bytes, tmp: nat, fault: Fault, cleanupWorks: bool) returns (ok: bool)
      requires Valid() && tmp !in temps
      modifies this
      ensures Valid()
      ensures ok <==> ValidKey(key) && fault.NoFault?
      ensures disk == if ValidKey(key) then AfterSave(old(disk), key, fault) else old(disk)
      ensures contents == if ValidKey(key) && !fault.BeforeRename() then old(contents)[key := jpeg] else old(contents)
      ensures temps <= old(temps) + {tmp}
      ensures !ValidKey(key) || !fault.BeforeRename() || fault.CreateTemp? || cleanupWorks ==> temps == old(temps)
    {
      if !ValidKey(key) {
        return false;
      }
      if fault.CreateTemp? {
        return false;
      }
      temps := temps + {tmp};
      if fault.BeforeRename() {
        Cleanup(tmp, cleanupWorks);
        return false;
      }
      temps := temps - {tmp};
      disk, contents := disk.Rename(key), contents[key := jpeg];
      if fault.OpenDir? {
        return false;
      }
      if fault.SyncDirectory? {
        return false;
      }
      disk := disk.Sync();
      return !fault.CloseDir?;
    }

    /** Deletes the photo; one that is already gone is not an error. */
    method Remove(key: Key, works: bool) returns (ok: bool)
      requires Valid()
      modifies this`disk, this`contents
      ensures Valid()
      ensures ok <==> ValidKey(key) && (works || key !in old(disk).files)
      ensures if ValidKey(key) && works && key in old(disk).files
              then disk == old(disk).Unlink(key) && contents == old(contents) - {key}
              else disk == old(disk) && contents == old(contents)
    {
      if !ValidKey(key) {
        return false;
      }
      if key !in disk.files {
        return true;
      }
      if works {
        disk, contents := disk.Unlink(key), contents - {key};
      }
      return works;
    }
  }

  /** Each way a Save can go is a path of protocol steps with the same effect on the directory. */
  lemma SaveFollowsProtocol(s: State, r: Req, key: Key, fault: Fault)
    requires r in s.inflight && s.inflight[r].Processed? && key !in s.usedKeys
    ensures fault.BeforeRename() ==>
              Enabled(s, SaveFails(r)) && Apply(s, SaveFails(r)).disk == AfterSave(s.disk, key, fault)
    ensures !fault.BeforeRename() ==>
              var synced := fault.NoFault? || fault.CloseDir?;
              var named := Apply(s, RenameFile(r, key));
              var step := SyncDir(r, synced, fault.NoFault?);
              && Enabled(s, RenameFile(r, key)) && Enabled(named, step)
              && Apply(named, step).disk == AfterSave(s.disk, key, fault)
              && (fault.NoFault? <==> r in Apply(named, step).inflight)
  {
  }
}
