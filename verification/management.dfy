/** The canister's two stores and its update calls. Each call validates its
    input, makes its capacity decision, and only then writes at most one
    record. Fresh ids and the clock are parameters of the calls. */
module Management {
  import opened Records
  import opened CapacityCalculator

  const HousingCreatedMsg := "Success: Housing data has been successfully created."

  class Stores {
    /** The traffic store, keyed by traffic id. */
    var trafficStorage: map<string, Traffic>
    /** The housing store, in insertion order; each id occurs once. */
    var housingStorage: seq<Housing>

    ghost predicate Valid()
      reads this
    {
      WellFormed(trafficStorage, housingStorage)
    }

    /** Both stores start empty. */
    constructor ()
      ensures Valid()
      ensures trafficStorage == map[] && housingStorage == []
    {
      trafficStorage := map[];
      housingStorage := [];
    }

    /** The headroom of traffic `id` in the current stores; reading it changes nothing. */
    function GetTrafficRemainingLimit(id: string): int
      reads this
    {
      RemainingLimit(trafficStorage, housingStorage, id)
    }

    /** Creates a traffic record under `freshId` when the payload is valid. */
    method CreateTraffic(payload: TrafficPayload, freshId: string, now: Nat64) returns (r: Result<string>)
      requires Valid()
      requires freshId != "" && freshId !in trafficStorage
      modifies this
      ensures Valid()
      ensures r == if ValidTrafficPayload(payload) then Ok(freshId) else Err(InvalidPayload)
      ensures housingStorage == old(housingStorage)
      ensures r.Err? ==> trafficStorage == old(trafficStorage)
      ensures r.Ok? ==>
                trafficStorage == old(trafficStorage)[freshId := Traffic(freshId, payload.roadName, payload.limit, now, None)]
      ensures r.Ok? ==> GetTrafficRemainingLimit(freshId) == payload.limit
      ensures forall id :: id != freshId ==> GetTrafficRemainingLimit(id) == old(GetTrafficRemainingLimit(id))
      ensures old(WithinLimits(trafficStorage, housingStorage)) ==> WithinLimits(trafficStorage, housingStorage)
    {
      if !ValidTrafficPayload(payload) {
        return Err(InvalidPayload);
      }
      var traffic := Traffic(freshId, payload.roadName, payload.limit, now, None);
      NewTrafficHeadroom(trafficStorage, housingStorage, traffic);
      trafficStorage := trafficStorage[freshId := traffic];
      r := Ok(freshId);
    }

    /** Creates a housing record under `freshId` when the payload is valid and
        its traffic has at least `numberOfResidents` of headroom; the response
        carries the headroom as it was before the allocation. */
    method CreateHousing(payload: HousingPayload, freshId: string, now: Nat64) returns (r: Result<HousingResponse>)
      requires Valid()
      requires FreshHousingId(housingStorage, freshId)
      modifies this
      ensures Valid()
      ensures trafficStorage == old(trafficStorage)
      ensures !ValidHousingPayload(payload) ==> r == Err(InvalidPayload)
      ensures ValidHousingPayload(payload) ==>
                var before := old(GetTrafficRemainingLimit(payload.trafficId));
                r == if before >= payload.numberOfResidents
                     then Ok(HousingResponse(HousingCreatedMsg, true, before))
                     else Err(CapacityExceeded(before))
      ensures r.Err? ==> housingStorage == old(housingStorage)
      ensures r.Ok? ==>
                housingStorage == old(housingStorage) +
                  [Housing(freshId, payload.housingName, payload.numberOfResidents, payload.trafficId, now, None)]
      ensures r.Ok? ==> payload.trafficId in trafficStorage
      ensures r.Ok? ==>
                GetTrafficRemainingLimit(payload.trafficId) == r.value.remainingLimit - payload.numberOfResidents
      ensures r.Ok? ==>
                SumResidents(housingStorage, payload.trafficId) <= trafficStorage[payload.trafficId].trafficLimit
      ensures forall id :: id != payload.trafficId ==> GetTrafficRemainingLimit(id) == old(GetTrafficRemainingLimit(id))
      ensures old(WithinLimits(trafficStorage, housingStorage)) ==> WithinLimits(trafficStorage, housingStorage)
    {
      if !ValidHousingPayload(payload) {
        return Err(InvalidPayload);
      }
      var remainingLimit := GetTrafficRemainingLimit(payload.trafficId);
      var isSuccess := remainingLimit >= payload.numberOfResidents;
      if !isSuccess {
        return Err(CapacityExceeded(remainingLimit));
      }
      var housing := Housing(freshId, payload.housingName, payload.numberOfResidents, payload.trafficId, now, None);
      AcceptedAllocation(trafficStorage, housingStorage, housing);
      housingStorage := housingStorage + [housing];
      r := Ok(HousingResponse(HousingCreatedMsg, isSuccess, remainingLimit));
    }

    /** Replaces the road name and limit of traffic `id` and stamps the edit.
        The housings already allocated against it are not re-checked, so a
        limit lowered below their residents is accepted. */
    method EditTrafficLimit(id: string, payload: TrafficPayload, now: Nat64) returns (r: Result<Traffic>)
      requires Valid()
      modifies this
      ensures Valid()
      ensures housingStorage == old(housingStorage)
      ensures id == "" ==> r == Err(InvalidId)
      ensures id != "" && id !in old(trafficStorage) ==> r == Err(NotFound(id))
      ensures id != "" && id in old(trafficStorage) && !ValidTrafficPayload(payload) ==> r == Err(InvalidPayload)
      ensures r.Ok? <==> id != "" && id in old(trafficStorage) && ValidTrafficPayload(payload)
      ensures r.Err? ==> trafficStorage == old(trafficStorage)
      ensures r.Ok? ==>
                && r.value == old(trafficStorage)[id].(roadName := payload.roadName,
                                                       trafficLimit := payload.limit,
                                                       updatedAt := Some(now))
                && trafficStorage == old(trafficStorage)[id := r.value]
      ensures r.Ok? ==> r.value.id == id && r.value.createdDate == old(trafficStorage)[id].createdDate
    {
      if id == "" {
        return Err(InvalidId);
      }
      if id !in trafficStorage {
        return Err(NotFound(id));
      }
      var traffic := trafficStorage[id];
      if !ValidTrafficPayload(payload) {
        return Err(InvalidPayload);
      }
      traffic := traffic.(roadName := payload.roadName, trafficLimit := payload.limit, updatedAt := Some(now));
      trafficStorage := trafficStorage[id := traffic];
      r := Ok(traffic);
    }
  }

  /** A client run of the allocation rule: a limit of 10, an allocation of 6
      that reports the headroom of 10 it found, a rejected allocation of 5
      against the 4 left, then an allocation of exactly the 4 left. */
  method ExampleAllocation() {
    var stores := new Stores();
    var t := stores.CreateTraffic(TrafficPayload("Main St", 10), "T1", 1);
    assert t == Ok("T1");
    assert stores.GetTrafficRemainingLimit("T1") == 10;

    var a := stores.CreateHousing(HousingPayload("Block A", 6, "T1"), "H1", 2);
    assert a == Ok(HousingResponse(HousingCreatedMsg, true, 10));
    assert stores.GetTrafficRemainingLimit("T1") == 4;

    var b := stores.CreateHousing(HousingPayload("Block B", 5, "T1"), "H2", 3);
    assert b == Err(CapacityExceeded(4));

    var c := stores.CreateHousing(HousingPayload("Block C", 4, "T1"), "H3", 4);
    assert c == Ok(HousingResponse(HousingCreatedMsg, true, 4));
    assert stores.GetTrafficRemainingLimit("T1") == 0;
  }

  /** A client run of the limit edit: an allocation against an unknown traffic
      is refused, an edit of an unknown id is refused, and a limit lowered
      below the residents already allocated is accepted. */
  method ExampleEdits() {
    var stores := new Stores();
    var t := stores.CreateTraffic(TrafficPayload("Main St", 10), "T1", 1);
    var a := stores.CreateHousing(HousingPayload("Block A", 6, "T1"), "H1", 2);
    assert a.Ok?;

    var d := stores.CreateHousing(HousingPayload("Block D", 1, "T2"), "H2", 3);
    assert d == Err(CapacityExceeded(0));

    var e := stores.EditTrafficLimit("T9", TrafficPayload("Side St", 3), 4);
    assert e == Err(NotFound("T9"));

    assert WithinLimits(stores.trafficStorage, stores.housingStorage);
    var f := stores.EditTrafficLimit("T1", TrafficPayload("Main St", 5), 5);
    assert f.Ok? && f.value.trafficLimit == 5 && f.value.updatedAt == Some(5);
    LoweredLimitBreaksWithinLimits(stores.trafficStorage, stores.housingStorage, f.value);
    assert !WithinLimits(stores.trafficStorage, stores.housingStorage);
    assert stores.GetTrafficRemainingLimit("T1") == 0;
  }
}
