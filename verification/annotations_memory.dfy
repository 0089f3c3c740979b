/** The in-memory annotations adapter: parsed annotations stored in an
    array under the lower-cased key. */
module AnnotationsMemory {
  import opened Wrappers
  import opened Php
  import Text

  /** The `_data` property: null until the first write, then an array. */
  datatype Memory = Memory(data: Value)

  function NewMemory(): Memory {
    Memory(Null)
  }

  /** `read(key)`: the stored value (a stored null included), or false. */
  function Read(m: Memory, key: string): (r: Value)
    ensures Fetch(m.data, StrKey(Text.ToLower(key))).None? ==> r == Bool(false)
    ensures Fetch(m.data, StrKey(Text.ToLower(key))).Some? ==> r == Fetch(m.data, StrKey(Text.ToLower(key))).value
  {
    match Fetch(m.data, StrKey(Text.ToLower(key)))
    case Some(data) => data
    case None => Bool(false)
  }

  /** `write(key, data)`: assigning into the null property first makes it
      an empty array. */
  function Write(m: Memory, key: string, data: Value): (r: Memory)
    ensures r.data.Arr?
    ensures Fetch(r.data, StrKey(Text.ToLower(key))) == Some(data)
    ensures forall k :: k != StrKey(Text.ToLower(key)) && m.data.Arr? ==> Fetch(r.data, k) == Fetch(m.data, k)
  {
    var entries := if m.data.Arr? then m.data.entries else [];
    Memory(Arr(Put(entries, StrKey(Text.ToLower(key)), data)))
  }

  /** Reading any spelling of a key that lower-cases like the written one
      gives the written data back. */
  lemma ReadAfterWrite(m: Memory, written: string, read: string, data: Value)
    requires Text.ToLower(read) == Text.ToLower(written)
    ensures Read(Write(m, written, data), read) == data
  {
  }

  /** A write leaves the entry of every other lower-cased key as it was. */
  lemma WriteKeepsOtherKeys(m: Memory, written: string, read: string, data: Value)
    requires Text.ToLower(read) != Text.ToLower(written)
    ensures Read(Write(m, written, data), read) == Read(m, read)
  {
    assert StrKey(Text.ToLower(read)) != StrKey(Text.ToLower(written));
  }

  /** Nothing can be read from a fresh adapter. */
  lemma ReadFresh(key: string)
    ensures Read(NewMemory(), key) == Bool(false)
  {
  }

  /** The data written under a key is found by the lower-case spelling of
      it only; the array holds no other new key. */
  lemma WriteStoresLowercased(m: Memory, key: string, data: Value)
    ensures Find(Write(m, key, data).data.entries, StrKey(Text.ToLower(key))) == Some(data)
    ensures forall k :: Find(Write(m, key, data).data.entries, k).Some? ==>
              k == StrKey(Text.ToLower(key)) || (m.data.Arr? && Find(m.data.entries, k).Some?)
  {
  }
}
