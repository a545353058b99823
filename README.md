# Sums to n and the resource listing rule, in Dafny

This project models the two pieces of logic in the code-challenge repository.

- **Summing 1..n** (`src/problem4/main.ts`). It has three versions: an accumulating `for` loop (`sum_to_n_a`), the closed formula `n(n+1)/2` (`sum_to_n_b`) and a recursion (`sum_to_n_c`). The loop is the method `SumToN.SumToNLoop` with its loop invariants. The other two are functions. All three are tied to one reference definition, `SumOneTo`, the sum of the integers `1 <= k <= n`, which is 0 when `n < 1`. The project proves that they agree for `n >= 0`, and states how they differ for negative `n`.
- **The resource API** (`src/problem5`). The ORM calls the service makes are given a reference meaning over a table value in module `Store`: a sequence of rows. The calls are `findMany` with `where`/`orderBy createdAt desc`/`skip`/`take`, `count` and `findUnique`. Module `ResourceService` models `listResources`: the where-clause, the offset `(page-1)*limit`, the window of `limit` rows and the pagination metadata with `totalPages = ceil(total/limit)`. The offset is defined by repeated addition, and `OffsetIsProduct` proves it equal to `(page-1)*limit`; this keeps multiplication out of the listing proofs. It also models `getResource`. Module `ResourceController` models the `page`/`limit` defaulting (`parseInt(...) || d`). It also models each of the five handlers as a function from the service outcome to a `(status, body)` response. A thrown error is represented by its string form `String(error)`.

Two details of the code are modelled as written. A `page` or `limit` of `0` becomes the default, because `0 || d` is `d`. An empty `name` matches every row like an absent one, because `""` is falsy.

## Model

| member | source | states |
|---|---|---|
| `SumToN.SumToNLoop` | src/problem4/main.ts:4-10 | the loop returns the sum of 1..n; for `n <= 0` the body never runs and it returns 0; for `n >= 0` twice the result is `n(n+1)`; invariants `1 <= i <= (if n >= 1 then n+1 else 1)`, `sum` = sum of 1..i-1 and `2*sum == (i-1)*i` |
| `SumToN.SumOneToClosedForm` | src/problem4/main.ts:4-17 | for `n >= 0` twice the sum of 1..n equals `n(n+1)` (Gauss), by induction |
| `SumToN.ConsecutiveProductEven` | src/problem4/main.ts:16 | `n(n+1)` is even for every integer `n` |
| `SumToN.SumToNFormula` | src/problem4/main.ts:15-17 | the division by 2 is exact for every integer: twice the result is `n(n+1)` |
| `SumToN.SumToNRecursive` | src/problem4/main.ts:22-25 | returns `n` for every `n <= 1`, negatives included; for `n >= 0` returns the sum of 1..n; terminates with measure `n` |
| `SumToN.AllThreeAgree` | src/problem4/main.ts:4-25 | for `n >= 0` the loop's specification, the formula and the recursion give the same value, `n(n+1)/2` |
| `SumToN.NegativeInputsDisagree` | src/problem4/main.ts:4-25 | for `n < 0`: the loop gives 0, the recursion gives `n` itself, which is negative; the formula gives the sum of 1..-n-1, which is 0 only for `n = -1` |
| `SumToN.SampleFive` | src/problem4/main.ts:27-29 | all three give 15 for input 5 |
| `SumToN.SampleMinusThree` | src/problem4/main.ts:4-25 | for `n = -3` the loop gives 0, the formula 3 and the recursion -3 |
| `Store.Filter` | src/problem5/src/services/resource.service.ts:27-28 | the filtered rows are no more than the table's rows |
| `Store.FilterKeepsMatching` | src/problem5/src/services/resource.service.ts:27-28 | each row occurs in the filtered rows as often as in the table if it satisfies the where-clause, and not at all otherwise |
| `Store.Count` | src/problem5/src/services/resource.service.ts:33 | the count is at most the number of rows |
| `Store.CountIsFilterLength` | src/problem5/src/services/resource.service.ts:26-34 | `count` and `findMany` under one where-clause see the same rows: the count is the number of filtered rows |
| `Store.InsertNewestFirst` | src/problem5/src/services/resource.service.ts:29 | one insertion step adds exactly that row, at the front or after the first row |
| `Store.InsertKeepsNewestFirst` | src/problem5/src/services/resource.service.ts:29 | inserting into a newest-first sequence keeps it newest-first |
| `Store.SortNewestFirst` | src/problem5/src/services/resource.service.ts:29 | the result is a permutation of the input |
| `Store.SortIsNewestFirst` | src/problem5/src/services/resource.service.ts:29 | the sorted rows are ordered by `createdAt` descending |
| `Store.Window` | src/problem5/src/services/resource.service.ts:30-31 | skip/take keeps the `take` elements from position `skip` on, fewer at the end, none past it |
| `Store.FindMany` | src/problem5/src/services/resource.service.ts:27-32 | at most `take` rows |
| `Store.FindManyRows` | src/problem5/src/services/resource.service.ts:27-32 | every fetched row is a stored row satisfying the where-clause, and the page is ordered newest first |
| `Store.FindUnique` | src/problem5/src/services/resource.service.ts:48 | a row is returned iff some stored row has the id, and it is a stored row with that id |
| `Store.FindUniqueFindsStored` | src/problem5/src/services/resource.service.ts:48 | with unique ids, looking up a stored row's id returns that row |
| `ResourceService.WhereClause` | src/problem5/src/services/resource.service.ts:20-23 | an absent or empty name matches every row; otherwise exactly the rows whose name equals it |
| `ResourceService.OffsetIsProduct` | src/problem5/src/services/resource.service.ts:30 | the offset of page `page` is `(page-1)*limit` |
| `ResourceService.OffsetMonotone` | src/problem5/src/services/resource.service.ts:30 | later pages start further on |
| `ResourceService.TotalPages` | src/problem5/src/services/resource.service.ts:42 | for `limit >= 1`: zero pages iff zero rows; otherwise the last page starts before row `total` and the page after it starts at or past it |
| `ResourceService.TotalPagesIsCeiling` | src/problem5/src/services/resource.service.ts:42 | zero pages iff zero rows; otherwise `(totalPages-1)*limit < total <= totalPages*limit`, which is `ceil(total/limit)` |
| `ResourceService.ListResources` | src/problem5/src/services/resource.service.ts:17-45 | page and limit are echoed; total is the number of filtered rows; `totalPages` is `TotalPages(total, limit)`, the ceiling of `total/limit`; the data has exactly `limit` rows on a full page, the remaining rows on the last page and none past it, and is the contiguous slice of the filtered newest-first rows that starts at the page's offset |
| `ResourceService.ListedRowsMatchNewestFirst` | src/problem5/src/services/resource.service.ts:20-37 | the listed rows are stored rows satisfying the where-clause, ordered newest first |
| `ResourceService.PageLength` | src/problem5/src/services/resource.service.ts:30-31 | a page holds `limit` rows, or the remaining rows on the last page, or none past the end |
| `ResourceService.TotalIndependentOfPage` | src/problem5/src/services/resource.service.ts:26-34 | the total does not depend on the page or limit asked for |
| `ResourceService.SecondPageOfTen` | src/problem5/src/services/resource.service.ts:29-31 | with `page=2, limit=10` the data is items 11 to 20 of the ordered rows |
| `ResourceService.PageWithinTotal` | src/problem5/src/services/resource.service.ts:30-42 | a page that starts before row `total` is numbered at most `totalPages` |
| `ResourceService.NonEmptyPageWithinTotal` | src/problem5/src/services/resource.service.ts:29-42 | a page that starts at one of the filtered rows is numbered at most `totalPages` |
| `ResourceService.RowOnItsPage` | src/problem5/src/services/resource.service.ts:29-37 | the row at offset plus `m`, for `m < limit`, is at position `m` of that page; together with `NonEmptyPageWithinTotal`, pages 1..totalPages cover every row |
| `ResourceService.PagePastEndIsEmpty` | src/problem5/src/services/resource.service.ts:30-42 | a page past `totalPages` has no data |
| `ResourceService.NameFilterIsExact` | src/problem5/src/services/resource.service.ts:20-23 | with a non-empty name, a row is among the listed rows iff it is stored and its name equals the filter exactly |
| `ResourceService.GetResource` | src/problem5/src/services/resource.service.ts:47-49 | absent iff no stored row has the id; otherwise a stored row with that id |
| `ResourceService.GetFindsStored` | src/problem5/src/services/resource.service.ts:47-49 | with unique ids, every stored row is found by its id |
| `ResourceController.OrDefault` | src/problem5/src/controllers/resource.controller.ts:18-19 | a present nonzero parsed value is kept; an absent or zero one becomes the default |
| `ResourceController.ListParamsOf` | src/problem5/src/controllers/resource.controller.ts:17-28 | page defaults to 1 and limit to 10; neither is ever 0; the name is passed unchanged |
| `ResourceController.ListDefaults` | src/problem5/src/controllers/resource.controller.ts:18-19 | page is 1 iff the parsed page is absent, 0 or 1 (likewise limit with 10); negative values pass through |
| `ResourceController.ListParamsInRange` | src/problem5/src/controllers/resource.controller.ts:18-19 | absent or non-negative page and limit give `page >= 1` and `limit >= 1` |
| `ResourceController.CreateResponse` | src/problem5/src/controllers/resource.controller.ts:5-12 | 2xx iff the creation succeeded; 201 with the resource, or 400 with the error string |
| `ResourceController.ListResponse` | src/problem5/src/controllers/resource.controller.ts:15-34 | 2xx iff the listing succeeded; 200 with the result, or 500 with the error string |
| `ResourceController.GetResponse` | src/problem5/src/controllers/resource.controller.ts:38-43 | 2xx iff a record was found; 200 with it, or 404 `"Not found"` |
| `ResourceController.UpdateResponse` | src/problem5/src/controllers/resource.controller.ts:46-54 | 2xx iff the update succeeded; 200 with the record, or 404 `"Not found"` for any failure |
| `ResourceController.DeleteResponse` | src/problem5/src/controllers/resource.controller.ts:57-65 | 2xx iff the deletion succeeded; 204 with no body, or 404 `"Not found"` for any failure |
| `ResourceController.FailuresConflated` | src/problem5/src/controllers/resource.controller.ts:46-65 | update and delete give the same answer for every failure, whatever the error |
| `ResourceController.FailuresHaveErrorBody` | src/problem5/src/controllers/resource.controller.ts:5-65 | every failing answer of the five handlers has an error body and status 400, 404 or 500 |
| `ResourceController.GetByIdAnswers` | src/problem5/src/controllers/resource.controller.ts:38-43 | get-by-id answers 404 `"Not found"` iff no stored row has the id, otherwise 200 with that row |
| `ResourceController.DefaultListing` | src/problem5/src/controllers/resource.controller.ts:15-30 | with no page or limit, the listing answers 200 with the first ten ordered rows and echoes page 1, limit 10 |

## Left out

- `ResourceService.ListResources`: only windows with `page >= 1` and `limit >= 1` are given a meaning. The controller passes negative parsed values through. What the ORM does with the resulting negative `skip` or `take` is library behaviour not shown.
- `ResourceService.TotalPages`: uses integer ceiling division rather than floating-point `Math.ceil(total / limit)`. The two agree for `limit >= 1` and counts below 2^53.
- `Store.SortNewestFirst`: rows with equal `createdAt` keep table order. The store does not promise any particular order among ties.
- `ResourceService.RowOnItsPage`: the coverage of every row by pages 1..totalPages holds only if the store orders rows with equal `createdAt` the same way on every query. `orderBy: {createdAt: "desc"}` has no tie-breaker, so in a real database a row sharing its `createdAt` with others can appear on two pages or on none.
- `ResourceService.SecondPageOfTen`: the same caveat. Items 11 to 20 are fixed only up to the order among rows with equal `createdAt`.
- `Store.Matches`: the name filter is exact, case-sensitive string equality. Whether the database compares names case-sensitively depends on its collation, which is not part of this model.
- Concurrency: `Promise.all` runs the page fetch and the count concurrently, and they are not isolated from concurrent writes. The model evaluates both on one table value. That consistency is a property of the model, not a guarantee of the code.
- `createResource`, `updateResource`, `deleteResource` in the service: id generation, timestamps, partial merge and not-found errors belong to the ORM, which is not part of this model. The handlers see only their outcomes. No claim is made about `updatedAt` or id assignment. Round trips such as create-then-get depend on them.
- The HTTP layer: Express routing, body parsing, the `/api` prefix and the port (`index.ts`, `resource.route.ts`), async/await and the `res.status().json()` writes. Handlers are functions from a service outcome to a `(status, body)` value.
- The thrown error in the get handler (it has no `try`/`catch`) is not modelled. Its outcome is only found or absent.
- JavaScript number details: `parseInt` (NaN, partial parses like `"12abc"`) is represented by an optional parsed integer. `Number(req.params.id)` is represented by an integer id. A repeated `name` query parameter, which arrives as an array, is not modelled.
- The sum functions work over unbounded integers. Floating-point, non-integer and beyond-2^53 inputs are not modelled. Neither is the call-stack depth of the recursion.
- The `console.log` calls are kept only as the concrete values in `SampleFive`.
