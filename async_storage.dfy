/** The device's key-value storage as the folder screen sees it: a map from key to
    stored document, with `getItem` and `setItem` that may each reject. */
module AsyncStorage {
  import opened FolderRecord

  datatype Option<T> = None | Some(value: T)

  /** A stored text, by what `JSON.parse` makes of it: an array of folder records,
      the empty text (which the caller treats like a missing key), or anything else
      that makes parsing or reading the names throw. */
  datatype StoredValue = FolderArray(folders: seq<Folder>) | EmptyText | Unparsable

  /** One call made on the storage, in the order it was made. */
  datatype Access = Read(key: string) | Write(key: string, value: StoredValue)

  /** `getItem`'s answer on success: the stored value, or none for an absent key. */
  function Lookup(items: map<string, StoredValue>, key: string): Option<StoredValue> {
    if key in items then Some(items[key]) else None
  }

  /** Reading a key just written gives the written value back, and a write under one
      key leaves what every other key reads unchanged. */
  lemma ReadAfterWrite(items: map<string, StoredValue>, key: string, value: StoredValue, other: string)
    ensures Lookup(items[key := value], key) == Some(value)
    ensures other != key ==> Lookup(items[key := value], other) == Lookup(items, other)
  {
  }

  /** The storage. `readFault` and `writeFault` say whether the platform rejects
      reads and writes; the ghost `log` is not part of the platform's storage, it
      records for the proofs every call made, failed ones included. */
  class KeyValueStore {
    var items: map<string, StoredValue>
    var readFault: bool
    var writeFault: bool
    ghost var log: seq<Access>

    constructor (items: map<string, StoredValue>, readFault: bool, writeFault: bool)
      ensures this.items == items && this.readFault == readFault && this.writeFault == writeFault
      ensures log == []
    {
      this.items := items;
      this.readFault := readFault;
      this.writeFault := writeFault;
      log := [];
    }

    /** `getItem(key)`: rejects when reads fail, otherwise yields the stored value
        or none; never changes what is stored. */
    method GetItem(key: string) returns (ok: bool, value: Option<StoredValue>)
      modifies this`log
      ensures log == old(log) + [Read(key)]
      ensures ok == !readFault
      ensures ok ==> value == Lookup(items, key)
    {
      log := log + [Read(key)];
      ok := !readFault;
      value := if ok then Lookup(items, key) else None;
    }

    /** `setItem(key, value)`: rejects and stores nothing when writes fail,
        otherwise replaces the value under `key` and leaves every other key alone. */
    method SetItem(key: string, value: StoredValue) returns (ok: bool)
      modifies this`items, this`log
      ensures log == old(log) + [Write(key, value)]
      ensures ok == !writeFault
      ensures items == if ok then old(items)[key := value] else old(items)
    {
      log := log + [Write(key, value)];
      ok := !writeFault;
      if ok {
        items := items[key := value];
      }
    }
  }
}
