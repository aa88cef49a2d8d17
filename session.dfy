/**
 * The type table of a `DeserializerSession`: types are tracked in encounter order and a
 * type id is an index into that order.
 */
module Session {
  import opened Wrappers
  import opened Errors
  import opened Bytes
  import opened TypeClassifiers

  /** One tracked type; version-tolerant registrations carry the (possibly null) field metadata. */
  datatype TrackedType =
    | Tracked(t: TypeHandle)
    | TrackedWithVersion(t: TypeHandle, versionInfo: Option<seq<ByteArray>>)

  /** `GetTypeFromTypeId`: the type tracked at position `typeId`, if that many have been tracked. */
  function TypeFromTypeId(tracked: seq<TrackedType>, typeId: nat): (r: Result<TypeHandle, Error>)
    ensures r.Success? <==> typeId < |tracked|
    ensures r.Success? ==> r.value == tracked[typeId].t
    ensures r.Failure? ==> r.error == TypeIdOutOfRange(typeId)
  {
    if typeId < |tracked| then Success(tracked[typeId].t) else Failure(TypeIdOutOfRange(typeId))
  }

  /**
   * Ids are positions in an append-only table: a newly tracked type gets the next id and
   * every id handed out earlier keeps naming the same type.
   */
  lemma TrackingAssignsNextId(tracked: seq<TrackedType>, entry: TrackedType, typeId: nat)
    ensures TypeFromTypeId(tracked + [entry], |tracked|) == Success(entry.t)
    ensures typeId < |tracked| ==> TypeFromTypeId(tracked + [entry], typeId) == TypeFromTypeId(tracked, typeId)
  {
  }

  /** Per-operation deserialisation state; only its type table is modelled. */
  class DeserializerSession {
    var tracked: seq<TrackedType>

    constructor ()
      ensures tracked == []
    {
      tracked := [];
    }

    method TrackDeserializedType(t: TypeHandle)
      modifies this
      ensures tracked == old(tracked) + [Tracked(t)]
    {
      tracked := tracked + [Tracked(t)];
    }

    method TrackDeserializedTypeWithVersion(t: TypeHandle, versionInfo: Option<seq<ByteArray>>)
      modifies this
      ensures tracked == old(tracked) + [TrackedWithVersion(t, versionInfo)]
    {
      tracked := tracked + [TrackedWithVersion(t, versionInfo)];
    }

    method GetTypeFromTypeId(typeId: nat) returns (r: Result<TypeHandle, Error>)
      ensures r == TypeFromTypeId(tracked, typeId)
    {
      r := TypeFromTypeId(tracked, typeId);
    }
  }
}
