# FuelEU Maritime compliance core, in Dafny

This project models the domain core of a FuelEU Maritime compliance backend.

It covers:

- **The compliance balance formula.** A ship's balance is the gap between the target GHG intensity (89.3368 gCO2e/MJ) and its actual intensity, times the energy in scope (fuel in tonnes × 41 000 MJ/t).
- **Route comparison.** An alternative route is compared against the baseline route.
- **Banking.** Surplus is banked into an append-only ledger, and surplus already banked is applied back out of it.
- **The adjusted-balance view.** Each stored balance is shown with what its ship has banked added to it.
- **Pooling.** Ships' balances are pooled under Article 21.
- **The greedy pool allocator.** This is the centrepiece, and it is modelled loop for loop:
  - The surplus ships are sorted largest-first, and so are the deficit ships.
  - A cursor walks the surplus ships.
  - Each deficit ship is filled from the cursor ship until the deficit is met or the surplus runs out.

## How the model is organised

The modules follow the layers of the program:

- **Domain values and errors:** `Entities`, `Dtos`, `Errors`, `Constants`.
- **Pure domain services:** `ComplianceCalculator`, `ComparisonCalculator`, `PoolAllocator`, with the supporting `Sums`, `Seqs` and `StableSort`. `Seqs.Filter` is the one order-keeping filter that the repositories' `where` queries are instances of.
- **Persistence:** `ComplianceRepository`, `BankRepository`, `PoolRepository`, `RouteRepository`. Each store is a class with one `seq` field. Its write operations are methods with `modifies this`. Its queries are functions on that field.
- **Use cases:** one module each. A use case's `Execute` takes the stores it was built with as parameters.

### The allocator's specification

`PoolAllocator.AllocatePool` keeps the source's own loops and working copies: `remaining`, `needed`, `received` and `surplusIdx`. It is proved equal to `PoolAllocator.Allocation`, an independent closed form of the outcome:

- Let D be the deficits' total need.
- The sorted surplus ships are drained front to back by D: the ship at position i gives min(cb_i, max(0, D − (cb_0 + … + cb_{i−1}))).
- Every deficit ship ends at zero.
- Every zero ship stays at zero.

The module `PoolInvariants` proves the allocator's documented invariants of that closed form, together with the shape of the output. `PoolScenarios` works out small pools exactly.

### Inputs taken as parameters

Several values the source draws from its environment are method parameters here:

- the clock and UUID generation: `poolId`, `entryId`, `createdAt` and `currentYear`;
- the database: the store objects.

## Model

| member | source | states |
|---|---|---|
| PoolAllocator.AllocatePool | backend/src/core/domain/services/PoolAllocator.ts:49-123 | It fails with InsufficientMembers(count) for fewer than two ships, first. It then fails with PoolNetNegative(net) when the net is negative. It succeeds exactly when there are at least two ships and the net is ≥ 0 (a net of 0 is accepted). Its result equals the closed-form `Allocation`. |
| PoolAllocator.GreedyFill | backend/src/core/domain/services/PoolAllocator.ts:60-87 | The cursor loop gives every deficit ship its full need when the surplus covers the total need. It leaves each surplus ship at its balance less what the closed form says that ship gives. |
| PoolAllocator.FillDeficit | backend/src/core/domain/services/PoolAllocator.ts:76-86 | The inner while loop for one deficit ship. What the ship receives is between 0 and its need, and is drawn in closed-form order. It falls short only when the cursor has passed the last surplus ship. |
| PoolAllocator.Transfer | backend/src/core/domain/services/PoolAllocator.ts:77-85 | One pass of the inner loop moves a positive amount, at most what is still outstanding, and keeps the closed-form drawing order. Either the cursor steps past an emptied ship, or the outstanding need is met in full. |
| PoolAllocator.BuildMembers | backend/src/core/domain/services/PoolAllocator.ts:89-117 | The three push loops produce the surplus members (each with what it still holds), then the deficit members, then the zero-balance members. |
| PoolAllocator.Surpluses | backend/src/core/domain/services/PoolAllocator.ts:60-61 | The filtered surplus group holds only ships with balance > 0. |
| PoolAllocator.Deficits | backend/src/core/domain/services/PoolAllocator.ts:65-66 | The filtered deficit group holds only ships with balance < 0. |
| PoolAllocator.Zeros | backend/src/core/domain/services/PoolAllocator.ts:71 | The zero group holds only ships with balance exactly 0. |
| PoolAllocator.PartitionPermutes | backend/src/core/domain/services/PoolAllocator.ts:60-71 | The three filters split the ships: together they hold each input ship exactly once. |
| PoolAllocator.PartitionSum | backend/src/core/domain/services/PoolAllocator.ts:54-71 | The net is the surplus group's sum plus the deficit group's sum. The zero group sums to 0. |
| PoolAllocator.SortedGroups | backend/src/core/domain/services/PoolAllocator.ts:60-68 | Sorting keeps each group's sign and its sum. The total need of the deficits is minus their summed balance. |
| PoolAllocator.NeedCovered | backend/src/core/domain/services/PoolAllocator.ts:54-57 | Once the net check passes, the surplus covers the total need, and the difference is the net. |
| PoolInvariants.Conservation | backend/src/core/domain/services/PoolAllocator.ts:16 | On success, the sum of cbAfter over the members equals the sum of cbBefore, and both equal the pool's net balance. |
| PoolInvariants.MemberBounds | backend/src/core/domain/services/PoolAllocator.ts:14-15 | Every surplus member ends with 0 ≤ cbAfter ≤ cbBefore. Every deficit member ends with cbBefore < cbAfter, and cbAfter is exactly 0. Every zero member stays at 0. |
| PoolInvariants.AllSurplusUnchanged | backend/src/core/domain/services/PoolAllocator.ts:110-117 | A pool of at least two ships, none in deficit, is accepted, and every member's balance is left unchanged. |
| PoolInvariants.DrainedInOrder | backend/src/core/domain/services/PoolAllocator.ts:74-87 | Once a surplus member has given anything, every member listed before it has given everything it had. |
| PoolInvariants.MembersOrder | backend/src/core/domain/services/PoolAllocator.ts:89-117 | The members are, in order, the surplus ships sorted largest-first, then the deficit ships sorted by largest need, then the zero ships. Each carries its original balance, and each is tagged with the pool id. |
| PoolInvariants.MembersPermute | backend/src/core/domain/services/PoolAllocator.ts:60-117 | On success there is one member per input ship. The members' (shipId, cbBefore) pairs are a permutation of the input ships. |
| PoolInvariants.TiesKeepInputOrder | backend/src/core/domain/services/PoolAllocator.ts:60-68 | The sort is stable: ships with equal balance appear in their group in input order. |
| PoolInvariants.Totals | backend/src/core/domain/services/PoolAllocator.ts:119-122 | totalSurplusBefore is the sum of the positive balances. totalDeficitBefore is the sum of the negative balances. netCb is their sum, which is the sum of all balances. |
| StableSort.SortDescPermutes | backend/src/core/domain/services/PoolAllocator.ts:63 | The sort returns a permutation of its input. |
| StableSort.SortDescSorted | backend/src/core/domain/services/PoolAllocator.ts:63 | The sort's output is in descending key order. |
| StableSort.SortDescStable | backend/src/core/domain/services/PoolAllocator.ts:68 | The sort keeps the input order of elements with equal keys. |
| StableSort.SortDescSum | backend/src/core/domain/services/PoolAllocator.ts:119-120 | The sort keeps every sum over its input. |
| StableSort.SortDescElements | backend/src/core/domain/services/PoolAllocator.ts:63 | The sort keeps the length, and every output element comes from the input. |
| PoolScenarios.SingleShipRejected | backend/src/core/domain/services/PoolAllocator.ts:50-52 | A one-ship pool fails with InsufficientMembers(1), and an empty pool with InsufficientMembers(0). |
| PoolScenarios.NetNegativeRejected | backend/src/core/domain/services/PoolAllocator.ts:54-57 | A pool of 100 and −200 fails with PoolNetNegative(−100). |
| PoolScenarios.SurplusCoversDeficit | backend/src/core/domain/services/PoolAllocator.ts:74-122 | A pool of 500 and −300 ends at 200 and 0, with totals 500, −300 and 200. |
| PoolScenarios.SurplusFillsTwoDeficits | backend/src/core/domain/services/PoolAllocator.ts:65-122 | A pool of 1000, −300 and −400 ends at 300, 0 and 0, with the −400 ship listed first, and totals 1000, −700 and 300. |
| CreatePoolUseCase.ShipCbsFor | backend/src/core/application/use-cases/CreatePoolUseCase.ts:25-32 | The lookups succeed exactly when every ship has a record for the year. On success they give the ships in input order, each with its stored balance. Otherwise they give ComplianceRecordNotFound for the first ship without one. |
| CreatePoolUseCase.MissingRecordWins | backend/src/core/application/use-cases/CreatePoolUseCase.ts:25-36 | The first ship without a record decides the outcome, whatever the allocator's checks would have said. |
| CreatePoolUseCase.MemberDtoSums | backend/src/core/application/use-cases/CreatePoolUseCase.ts:48-52 | The response members carry the same total before and the same total after as the allocator's members. |
| CreatePoolUseCase.DtoConservation | backend/src/core/application/use-cases/CreatePoolUseCase.ts:48-59 | The response members' balances before and after both add up to the response's netCb. |
| CreatePoolUseCase.Execute | backend/src/core/application/use-cases/CreatePoolUseCase.ts:23-60 | A missing record or an allocator error is returned unchanged, and the pool store is untouched. On success, exactly one pool is appended: its id is the one given to the allocator, its year is the requested one, and its members are exactly the allocator's. The response carries those members in that order, with the allocator's netCb. |
| PoolRepository.PoolStore.CreatePool | backend/src/adapters/outbound/postgres/PoolRepository.ts:47-66 | The pool and its members are stored together, after the pools already there. |
| BankSurplusUseCase.Deposit | backend/src/core/application/use-cases/BankSurplusUseCase.ts:26-49 | It succeeds exactly when the amount is positive, a record exists for the ship and year, and the amount is at most that record's balance (an amount equal to the balance is accepted). It fails with InvalidAmount, then ComplianceRecordNotFound, then InsufficientSurplus, in that order. On success the entry is (shipId, year, +amount). |
| BankSurplusUseCase.DepositRaisesTotal | backend/src/core/application/use-cases/BankSurplusUseCase.ts:44-51 | A deposit raises the depositing ship's banked total by the amount, and no other ship's total. |
| BankSurplusUseCase.DepositsCappedIndependently | backend/src/core/application/use-cases/BankSurplusUseCase.ts:40 | The cap is the stored balance alone. Banking the whole balance twice succeeds both times and banks twice the balance. |
| BankSurplusUseCase.Execute | backend/src/core/application/use-cases/BankSurplusUseCase.ts:26-59 | A failed guard returns its error and leaves the ledger unchanged. Otherwise exactly the new entry is appended after the existing ones, and the response equals that entry. |
| ApplyBankedSurplusUseCase.Withdrawal | backend/src/core/application/use-cases/ApplyBankedSurplusUseCase.ts:21-38 | It succeeds exactly when 0 < amount ≤ the ship's banked total. It fails with InvalidAmount first, then InsufficientBanked(shipId, amount, total). On success the entry is (shipId, current year, −amount). |
| ApplyBankedSurplusUseCase.WithdrawalLowersTotal | backend/src/core/application/use-cases/ApplyBankedSurplusUseCase.ts:26-40 | A withdrawal lowers the ship's banked total by exactly the amount. The total stays ≥ 0, and applying the whole total leaves 0. Other ships' totals are unchanged. |
| ApplyBankedSurplusUseCase.NothingToApply | backend/src/core/application/use-cases/ApplyBankedSurplusUseCase.ts:26-30 | A ship with nothing in the ledger fails with InsufficientBanked(shipId, amount, 0). |
| ApplyBankedSurplusUseCase.Execute | backend/src/core/application/use-cases/ApplyBankedSurplusUseCase.ts:21-41 | A failed guard returns its error and appends nothing. Otherwise exactly the withdrawal entry is appended. |
| BankRepository.ShipEntries | backend/src/adapters/outbound/postgres/BankRepository.ts:51-52 | It selects exactly the ledger's entries for the ship: every selected entry is the ship's and comes from the ledger, and every entry of the ship is selected. |
| BankRepository.TotalBankedAppend | backend/src/adapters/outbound/postgres/BankRepository.ts:50-60 | Appending an entry moves its own ship's total by the entry's amount, and leaves every other ship's total unchanged. |
| BankRepository.NothingBanked | backend/src/adapters/outbound/postgres/BankRepository.ts:50-56 | A ship with no entries has a total of 0, the sum over no rows being read as 0. |
| BankRepository.BankStore.Save | backend/src/adapters/outbound/postgres/BankRepository.ts:58-60 | One entry is appended, and every earlier entry is kept. |
| GetAdjustedComplianceBalanceUseCase.Execute | backend/src/core/application/use-cases/GetAdjustedComplianceBalanceUseCase.ts:27-47 | The result has one row per record of the year, in store order, with shipId and year copied. rawCbGco2eq is the stored balance and bankedSurplus is the ship's ledger total, whatever the sign of the balance. cbGco2eq is their sum, and status follows its sign. Neither store is written. |
| Dtos.StatusOf | backend/src/core/application/use-cases/GetAdjustedComplianceBalanceUseCase.ts:42 | The status is surplus iff the balance > 0, deficit iff < 0, and neutral iff = 0. |
| ComplianceCalculator.ComputeEnergy | backend/src/core/domain/services/ComplianceCalculator.ts:20-22 | The energy is positive iff the fuel is positive, and zero iff the fuel is zero. |
| ComplianceCalculator.ComputeComplianceBalance | backend/src/core/domain/services/ComplianceCalculator.ts:31-37 | With fuel > 0, the balance is positive iff the intensity is below target, and negative iff it is above target. |
| ComplianceCalculator.EnergyAdditive | backend/src/core/domain/services/ComplianceCalculator.ts:20-22 | The energy is the fuel times 41 000, and it is additive in the fuel. |
| ComplianceCalculator.NeutralCases | backend/src/core/domain/services/ComplianceCalculator.ts:31-37 | At the target intensity the balance is 0 for any fuel. With zero fuel it is 0 for any intensity. |
| ComplianceCalculator.IntensityFromBalance | backend/src/core/domain/services/ComplianceCalculator.ts:31-37 | With non-zero fuel, the intensity is the target minus the balance divided by the energy (the formula's inverse). |
| ComplianceCalculator.BalanceAdditive | backend/src/core/domain/services/ComplianceCalculator.ts:31-37 | Splitting a voyage's fuel splits its balance. |
| ComputeComplianceBalanceUseCase.ResponseRows | backend/src/core/application/use-cases/ComputeComplianceBalanceUseCase.ts:25-42 | There is one row per route, in route order. Each row has shipId = routeId, the route's year, and the balance given by the formula. Its status follows the sign, in both directions. |
| ComputeComplianceBalanceUseCase.OwnRecordIsLast | backend/src/core/application/use-cases/ComputeComplianceBalanceUseCase.ts:25-33 | With unique route ids, each route's record is the last record of the batch with its key. |
| ComputeComplianceBalanceUseCase.SavedBalances | backend/src/core/application/use-cases/ComputeComplianceBalanceUseCase.ts:35 | After the bulk save, each route's (routeId, year) key holds its computed record, and other keys keep what they held. |
| ComputeComplianceBalanceUseCase.Execute | backend/src/core/application/use-cases/ComputeComplianceBalanceUseCase.ts:22-43 | The records of the year's routes are saved by one bulk upsert, also when there are none. The store keeps unique keys, and the response lists the records with their status. |
| ComplianceRepository.Lookup | backend/src/adapters/outbound/postgres/ComplianceRepository.ts:43-48 | It returns nothing exactly when no record has the key. Otherwise it returns a stored record with that key. |
| ComplianceRepository.LookupFindsEach | backend/src/adapters/outbound/postgres/ComplianceRepository.ts:43-48 | With unique keys, every stored record is found under its own key. |
| Seqs.Filter | backend/src/adapters/outbound/postgres/ComplianceRepository.ts:50-57 | The filter keeps exactly the elements that satisfy the condition. No element appears more often than it does in the input. |
| ComplianceRepository.InYear | backend/src/adapters/outbound/postgres/ComplianceRepository.ts:50-57 | It returns exactly the stored records of the year, or all records when no year is given. No record appears twice, so the result has one row per stored record. |
| ComplianceRepository.LastWithKey | backend/src/adapters/outbound/postgres/ComplianceRepository.ts:71-76 | It returns the last record of a batch with the key, or nothing exactly when the batch has no record with that key. |
| ComplianceRepository.UpsertLookup | backend/src/adapters/outbound/postgres/ComplianceRepository.ts:72-75 | After an upsert, its key holds the new record and every other key is unchanged. |
| ComplianceRepository.UpsertKeepsDistinct | backend/src/adapters/outbound/postgres/ComplianceRepository.ts:72-75 | An upsert keeps keys unique. It replaces the record with the same key in place, and otherwise adds the record at the end. |
| ComplianceRepository.UpsertAllLookup | backend/src/adapters/outbound/postgres/ComplianceRepository.ts:67-78 | After a bulk save, a key in the batch holds the batch's last record with that key. Every other key keeps what it had. |
| ComplianceRepository.UpsertAllKeepsDistinct | backend/src/adapters/outbound/postgres/ComplianceRepository.ts:67-78 | A bulk save keeps keys unique. |
| ComplianceRepository.ComplianceStore.SaveAll | backend/src/adapters/outbound/postgres/ComplianceRepository.ts:67-78 | An empty batch returns at once. Otherwise it upserts each record in order. The resulting store is the batch's upserts applied to the old store, with keys still unique. |
| ComparisonCalculator.CompareRoutes | backend/src/core/domain/services/ComparisonCalculator.ts:48-72 | Ids and intensities are copied through. alternative intensity = baseline − deltaGhgIntensity. Each cb is computed by the formula, and alternativeCb = baselineCb + deltaCb. A zero baseline intensity gives a saving of 0. |
| ComparisonCalculator.CompareWithSelf | backend/src/core/domain/services/ComparisonCalculator.ts:55-59 | A route compared with itself has zero gaps and zero saving. |
| ComparisonCalculator.SavingsSign | backend/src/core/domain/services/ComparisonCalculator.ts:58-59 | With a positive baseline intensity, the saving is positive, negative or zero exactly when the intensity gap is. |
| ComparisonCalculator.SavingsInverse | backend/src/core/domain/services/ComparisonCalculator.ts:58-59 | With a non-zero baseline intensity, the intensity gap is the saving times the baseline intensity over 100. |
| ComparisonCalculator.CompareAntisymmetric | backend/src/core/domain/services/ComparisonCalculator.ts:55-56 | Swapping the routes negates both gaps. |
| ComparisonCalculator.SameFuelBalanceGap | backend/src/core/domain/services/ComparisonCalculator.ts:49-56 | For equal fuel, the balance gap is the intensity gap times the energy. |
| CompareRoutesUseCase.Execute | backend/src/core/application/use-cases/CompareRoutesUseCase.ts:16-40 | With no baseline it fails with NoBaseline, before the alternative is considered. Then an unknown id fails with RouteNotFound(id). It succeeds exactly when both routes exist. The response compares a flagged route with the requested id, and satisfies the two delta relations. |
| CompareRoutesUseCase.ResponseIsComparison | backend/src/core/application/use-cases/CompareRoutesUseCase.ts:27-39 | Each response field equals the same field of compareRoutes on the baseline and the alternative. |
| RouteRepository.FindByRouteId | backend/src/adapters/outbound/postgres/RouteRepository.ts:68-73 | It returns nothing exactly when no route has the id. Otherwise it returns a stored route with that id. |
| RouteRepository.FindBaseline | backend/src/adapters/outbound/postgres/RouteRepository.ts:75-80 | It returns nothing exactly when no route is flagged. Otherwise it returns a flagged stored route. |
| RouteRepository.RoutesInYear | backend/src/adapters/outbound/postgres/RouteRepository.ts:59-66 | It returns exactly the routes of the year, or all routes when no year is given. No route appears twice. |
| RouteRepository.SetBaselineFlags | backend/src/adapters/outbound/postgres/RouteRepository.ts:82-87 | Only the flags change: every route keeps its place and its other fields. A route is flagged iff its id is the one set. |
| RouteRepository.ExactlyOneBaseline | backend/src/adapters/outbound/postgres/RouteRepository.ts:82-87 | With unique ids and the route present, exactly one route is flagged afterwards, and findBaseline returns it. |
| RouteRepository.SetBaselineIdempotent | backend/src/adapters/outbound/postgres/RouteRepository.ts:84-85 | Setting the same baseline twice gives the table that setting it once gives. |
| RouteRepository.RouteStore.SetBaseline | backend/src/adapters/outbound/postgres/RouteRepository.ts:82-87 | The table becomes the old table with the flags cleared and the named route flagged. Ids stay unique. |
| SetBaselineUseCase.Execute | backend/src/core/application/use-cases/SetBaselineUseCase.ts:15-22 | An unknown id fails with RouteNotFound(id), and the table is unchanged. Otherwise it succeeds, and the table is the set-baseline table. |

## Left out

- Floating point: balances, amounts and intensities are `real`. IEEE rounding is not modelled, so the exact conservation and exact zero results proved here are statements about exact arithmetic. The source sums in floating point, and can be off by rounding. `real` also has no NaN or Infinity. In the source, a NaN balance falls into none of the allocator's three groups yet passes the net check, and a NaN amount passes both of the deposit guards. The model has no such inputs.
- `ORDER BY`: the `orderBy` clauses of the stores' `findAll` queries (ship_id, route_id, year, created_at) are not modelled. Store order stands in for them, and the use cases list records in that order.
- The row `id` of a compliance record: nothing in the core reads it, and the upsert merges only the balance, so `ComplianceBalance` carries no id.
- The clock and UUID generation are parameters (see above).
- Error messages: each error is modelled by its constructor, its arguments and its code. The message text is not modelled.
- Queries and writes no core operation makes are not modelled:
  - the pool store's `findById` and `findAll`;
  - the ledger's `findByShipId` and `findAll`;
  - the compliance store's single-record `save`;
  - the route store's `save` and `seedAll`.
- HTTP controllers, request parsing and application wiring sit outside the core.
- Concurrency and transactions: each store operation is atomic, and concurrent requests are not modelled. A database failure part-way through a transaction is not modelled either.
- Duplicate ship ids in a pool request: the allocator accepts them, and so does the model, which places no constraint on them. In the source, the insert then violates the `pool_members` primary key `(pool_id, ship_id)`, the transaction aborts and the request fails. The model's `CreatePoolUseCase.Execute` succeeds instead and appends the pool, because the store does not model that key.
- The never-thrown `AllocationInvariantError`: it is declared as `Errors.AllocationInvariant`, and its invariants are proved rather than checked at run time.
- The ComparisonDto fields `percentDiff` and `compliant`, which no code fills, are omitted from `Dtos.ComparisonDto`.
- The compliance adapter writes to a table named `ship_compliance`, while the schema migration creates `compliance_balances`. This persistence mismatch is outside the model.
- The header comment of the adjusted-balance use case speaks of adjusting deficit ships only. The code adds the banked total to every record whatever its sign, and the model follows the code.
