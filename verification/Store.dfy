/** The local object store: a key is written once, and its content is checked on the way in and out. */
module Store {
  import opened Records

  datatype PutResult = Written(existed: bool) | HashMismatch | Collision

  class LocalArtifactStore {
    var objects: map<Key, Bytes>

    constructor ()
      ensures objects == map[]
    {
      objects := map[];
    }

    /** Stores `data` under `key`, unless the key already holds content. A success means that the key now
        holds content with the expected digest; no existing content ever changes. */
    method Put(key: Key, data: Bytes, expected: nat) returns (r: PutResult)
      modifies this
      ensures r.HashMismatch? <==> Sha256(data) != expected
      ensures r.Collision? <==> Sha256(data) == expected && key in old(objects) && Sha256(old(objects)[key]) != expected
      ensures r.Written? ==> key in objects && Sha256(objects[key]) == expected && (r.existed <==> key in old(objects))
      ensures objects == if r.Written? && !r.existed then old(objects)[key := data] else old(objects)
      ensures forall k :: k in old(objects) ==> k in objects && objects[k] == old(objects)[k]
    {
      if Sha256(data) != expected { return HashMismatch; }
      if key in objects {
        if Sha256(objects[key]) != expected { return Collision; }
        return Written(true);
      }
      objects := objects[key := data];
      return Written(false);
    }

    method Get(key: Key) returns (r: Option<Bytes>)
      ensures r.Some? <==> key in objects
      ensures r.Some? ==> r.value == objects[key]
    {
      if key !in objects { return None; }
      return Some(objects[key]);
    }

    /** The size of the object, when there is one. */
    method Head(key: Key) returns (r: Option<nat>)
      ensures r.Some? <==> key in objects
      ensures r.Some? ==> r.value == |objects[key]|
    {
      if key !in objects { return None; }
      return Some(|objects[key]|);
    }

    /** Reads the object back and compares its digest; a missing object does not verify. */
    method Verify(key: Key, expected: nat) returns (ok: bool)
      ensures ok <==> key in objects && Sha256(objects[key]) == expected
    {
      var data := Get(key);
      return data.Some? && Sha256(data.value) == expected;
    }

    method Exists(key: Key) returns (ok: bool)
      ensures ok <==> key in objects
    {
      var head := Head(key);
      return head.Some?;
    }

    method Delete(key: Key)
      modifies this
      ensures key !in objects
      ensures forall k :: k != key ==> (k in objects <==> k in old(objects)) && (k in objects ==> objects[k] == old(objects)[k])
      ensures objects == old(objects) - {key}
    {
      objects := objects - {key};
    }

    /** The keys below a prefix, each once; `below` says which keys the prefix covers. */
    method ListKeys(below: Key -> bool) returns (keys: seq<Key>)
      ensures forall k :: k in keys <==> k in objects && below(k)
      ensures forall i, j :: 0 <= i < j < |keys| ==> keys[i] != keys[j]
    {
      keys := [];
      var rest := objects.Keys;
      while rest != {}
        invariant rest <= objects.Keys
        invariant forall k :: k in keys <==> k in objects.Keys - rest && below(k)
        invariant forall i, j :: 0 <= i < j < |keys| ==> keys[i] != keys[j]
        decreases rest
      {
        var k :| k in rest;
        rest := rest - {k};
        if below(k) { keys := keys + [k]; }
      }
    }
  }
}
