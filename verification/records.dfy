/** The record types of the housing/traffic canister, the payloads its update
    calls take, and the outcomes they return. */
module Records {

  /** Timestamps as the canister's clock gives them: unsigned 64-bit integers. */
  type Nat64 = x: int | 0 <= x < 0x1_0000_0000_0000_0000

  datatype Option<T> = None | Some(value: T)

  /** A named capacity pool: at most `trafficLimit` residents may be allocated against it. */
  datatype Traffic = Traffic(
    id: string,
    roadName: string,
    trafficLimit: int,
    createdDate: Nat64,
    updatedAt: Option<Nat64>)

  /** A capacity-consuming unit bound to the traffic record `trafficId`. */
  datatype Housing = Housing(
    id: string,
    housingName: string,
    numberOfResidents: int,
    trafficId: string,
    createdDate: Nat64,
    updatedAt: Option<Nat64>)

  datatype HousingPayload = HousingPayload(housingName: string, numberOfResidents: int, trafficId: string)

  datatype TrafficPayload = TrafficPayload(roadName: string, limit: int)

  datatype HousingResponse = HousingResponse(msg: string, isSuccess: bool, remainingLimit: int)

  /** The failures the update calls report, in place of their message strings. */
  datatype Error =
    | InvalidPayload                          // a name is empty or a count is not positive
    | InvalidId                               // the traffic id given to an edit is empty
    | NotFound(id: string)                    // no traffic record under that id
    | CapacityExceeded(remainingLimit: int)   // the residents do not fit the headroom

  datatype Result<T> = Ok(value: T) | Err(error: Error)

  /** A traffic payload is accepted when its road name is non-empty and its limit positive. */
  predicate ValidTrafficPayload(p: TrafficPayload) {
    p.roadName != "" && p.limit > 0
  }

  /** A housing payload is accepted when both strings are non-empty and it brings at least one resident. */
  predicate ValidHousingPayload(p: HousingPayload) {
    p.housingName != "" && p.numberOfResidents > 0 && p.trafficId != ""
  }
}
