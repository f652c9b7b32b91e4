# Housing/traffic capacity allocation, modelled in Dafny

The canister keeps two stores. The traffic store holds *traffic* records: named capacity pools, each with a resident limit. The housing store holds *housing* records: units that each bring a number of residents and reference one traffic record. It offers three update calls:

- `createTraffic` validates a road name and a limit, then stores a new traffic record under a fresh id.
- `createHousing` validates a housing payload and asks the capacity calculator for the traffic's headroom. It stores the housing only when the residents fit that headroom, and it reports the headroom it saw *before* the allocation.
- `editTrafficLimit` overwrites a traffic record's road name and limit and stamps the edit time. It never re-checks the housings already allocated against that traffic.

The capacity calculator `getTrafficRemainingLimit` adds up the residents of every housing that references a traffic id. It returns the limit minus that total, floored at 0. It returns 0 for an empty id or an unknown one.

Layout:

- `records.dfy` (module `Records`): the record, payload and response types, the error kinds, and the two payload checks.
- `capacity.dfy` (module `CapacityCalculator`): the calculator as pure functions, written as a filter step (`Matching`) and a reduce step (`TotalResidents`), as in the source. It also holds the store invariants and the lemmas about them. `WellFormed` covers ids, names, positive counts, and every housing referencing an existing traffic. `WithinLimits` is the capacity invariant.
- `management.dfy` (module `Management`): class `Stores` holds `trafficStorage` (a map) and `housingStorage` (a sequence). It has the three update calls as methods with `modifies this`. The read-only `GetTrafficRemainingLimit` is a function over the two fields. Two client methods, `ExampleAllocation` and `ExampleEdits`, replay a sample run: limit 10, allocate 6 and see headroom 10, refuse 5 against the 4 left, allocate exactly 4 down to 0. They then show that an unknown traffic refuses every allocation, that an edit of an unknown id fails with `NotFound`, and that lowering the limit below usage is accepted and breaks `WithinLimits`.

What is proved:

- Every update call keeps `WellFormed`. Since limits and resident counts are positive and an unknown traffic has headroom 0, no housing can be created against a traffic that does not exist.
- `createTraffic` and `createHousing` keep `WithinLimits`. An accepted housing also leaves its own traffic within the limit even if an earlier edit broke the invariant elsewhere.
- `editTrafficLimit` can break `WithinLimits`. `LoweredLimitBreaksWithinLimits` proves this in general and `EditCanViolateWithinLimits` on a concrete store.

Two behaviours of the code worth noting:

- `createHousing` has no explicit check that `traffic_id` names an existing traffic. An unknown id gets headroom 0, so the call fails with `CapacityExceeded(0)`, not with a not-found error. An empty `traffic_id` is refused earlier, by the payload check, with `InvalidPayload`.
- `editTrafficLimit` checks in this order: empty id (`InvalidId`), then lookup (`NotFound`), then payload (`InvalidPayload`). So an unknown id with an invalid payload reports `NotFound`.

Field names are written in camelCase. `roadName` is `road_name`, `trafficLimit` is `traffic_limit`, `createdDate` is `created_date`, `updatedAt` is `updated_at`, `housingName` is `housing_name`, `numberOfResidents` is `number_of_residents` and `trafficId` is `traffic_id`.

## Model

| member | source | states |
|---|---|---|
| `CapacityCalculator.Matching` | src/index.ts:114 | the filter keeps exactly the housings whose traffic id is the one asked for, and never grows the list |
| `CapacityCalculator.TotalResidents` | src/index.ts:115 | the reduce over non-negative resident counts is non-negative |
| `CapacityCalculator.RemainingLimit` | src/index.ts:107-131 | headroom is never negative; 0 for an empty or unknown id; at least the limit minus the allocated residents; when positive, exactly that difference (the allocated residents are `SumResidents`, the filter then the reduce; the class function `Management.Stores.GetTrafficRemainingLimit` applies this to the two stores) |
| `CapacityCalculator.MatchingConcat` | src/index.ts:114 | filtering a concatenation is concatenating the filtered parts |
| `CapacityCalculator.MatchingMultiset` | src/index.ts:114 | the filter keeps each matching housing exactly as often as the store holds it and drops every other one |
| `CapacityCalculator.TotalResidentsConcat` | src/index.ts:115 | the resident total of a concatenation is the sum of the parts' totals |
| `CapacityCalculator.SumResidentsConcat` | src/index.ts:114-115 | the residents allocated to a traffic split over any split of the housing store |
| `CapacityCalculator.SumResidentsAppend` | src/index.ts:94 | storing one housing adds its residents to its own traffic's total and to no other |
| `CapacityCalculator.SumResidentsUnreferenced` | src/index.ts:114-115 | a traffic no housing references has 0 residents allocated |
| `CapacityCalculator.SumResidentsPermutation` | src/index.ts:114-115 | the allocated residents do not depend on the order in which the store enumerates its housings |
| `CapacityCalculator.RemainingWithinLimit` | src/index.ts:122-124 | in a well-formed store a traffic's headroom lies between 0 and its limit |
| `CapacityCalculator.AcceptedAllocation` | src/index.ts:78-94 | an accepted housing references an existing traffic, lowers that traffic's headroom by exactly its residents, keeps that traffic within its limit, changes no other headroom, and preserves the capacity invariant |
| `CapacityCalculator.NewTrafficHeadroom` | src/index.ts:54-62 | a traffic stored under a fresh id has its whole limit as headroom, changes no other headroom, and preserves the capacity invariant |
| `CapacityCalculator.LoweredLimitBreaksWithinLimits` | src/index.ts:153-156 | a limit replaced by one below the allocated residents breaks the capacity invariant and leaves that traffic with headroom 0 |
| `CapacityCalculator.EditCanViolateWithinLimits` | src/index.ts:149-156 | a concrete well-formed store within its limits (limit 10, 6 residents) stays well-formed but leaves its limits when the limit is edited to 5 |
| `Management.Stores.constructor` | src/index.ts:42-43 | both stores start empty and well-formed |
| `Management.Stores.CreateTraffic` | src/index.ts:47-67 | an empty road name or a non-positive limit yields `InvalidPayload` and no write; otherwise the id is returned, exactly one record is added under it with the payload's name and limit, the given time and no update time, the housing store is unchanged, its headroom is its limit, every other headroom is unchanged, and both invariants are kept |
| `Management.Stores.CreateHousing` | src/index.ts:71-104 | an invalid payload yields `InvalidPayload`; otherwise it succeeds iff the headroom before the call is at least the residents, and a refusal carries that headroom; a refusal writes nothing; a success appends exactly one housing with the payload's fields, returns the pre-allocation headroom with `isSuccess` true, leaves the traffic store untouched, references an existing traffic, and the new headroom is the returned one minus the residents; both invariants are kept |
| `Management.Stores.EditTrafficLimit` | src/index.ts:135-164 | an empty id yields `InvalidId`, an unknown id `NotFound(id)`, and an invalid payload `InvalidPayload`, each with no write; otherwise the record under the same key keeps its id and creation time, gets the payload's road name and limit and the given update time, and is returned; housings are unchanged and are not re-checked |

## Left out

- Azle and IC plumbing: the `$update` markers and the construction and internals of `StableBTreeMap`. The traffic store is a Dafny `map` and the housing store a `seq`.
- The housing store as a keyed B-tree. The model keeps housings in insertion order with distinct ids, and no core call looks a housing up by key. `values()` enumerates in key order, and `SumResidentsPermutation` shows the allocated total is the same in any order.
- `uuidv4()` id generation: the fresh id is a parameter. Its precondition is that the id is non-empty and not yet a key, as a v4 UUID is.
- `ic.time()`: the timestamp is a parameter.
- The `try`/`catch` wrappers that turn thrown exceptions into error strings: store access cannot fail in the model.
- Error and success message text: errors are the `Error` datatype. Only the success message of `createHousing` is kept, as a constant.
- The `globalThis.crypto` shim built on `Math.random` and `Math.floor`: randomness plumbing for the id generator.
- JavaScript numbers are floats. Limits and resident counts are modelled as unbounded integers, with no NaN, fractions or rounding.
- Interleaved `createHousing` calls: the model is sequential, one call at a time, as the single-writer canister runs them.
