# Sorting benchmark and toy ledger — a verified Dafny model

The service is a small ASP.NET web API. It has two controllers. `SortingController` generates random people, each with a name and an age. `BankAccountSortingController` (in `KontoController.cs`) generates random bank accounts, each with a name and a balance. Each controller sorts copies of its generated list with selection sort and with merge sort. It times both sorts for dataset sizes 0, 1000, … up to `maxDatasetSize`. It answers with three parallel series: selection-sort times, merge-sort times and dataset sizes. The account controller also keeps an in-memory list of accounts. Its deposit and withdraw endpoints change the balance of the first account with a given name.

The two controllers carry identical copies of the sort algorithms; only the record type and the key differ. The model writes them once:
- `Sorts` holds the algorithms, generic over a record type and an integer key.
- `Ordering` holds the order they sort by and the notion of stability.
- Each controller's module instantiates them with its own key: `Age` for people, `Balance` for accounts.

Modules:

- `Ordering` (`ordering.dfy`):
  - `CompareKeys`: the key type's `CompareTo`.
  - `Sorted`: non-decreasing by key.
  - `WithKey`: the records of one key, in order.
  - `Stable`: every key keeps the order of its records.
  - `SortedStableUnique`: a sorted, stable rearrangement is unique.
- `Sorts` (`sorts.dfy`):
  - `SelectionSort`: in place on an array, with the nested index loops and the swap.
  - `Merge`: the index loop that appends to a fresh result. It is proved equal to the recursive specification `Merged`.
  - `MergeSort`: the recursion on the two copied halves, split at `Count / 2`.
- `Benchmark` (`benchmark.dfy`):
  - `SizesFrom` and `DatasetSizes`: the sizes the benchmark loop visits.
  - `Next`: the bounded random draw, `Random.Next(min, max)`.
  - `DecimalString`: the decimal text of an index, used in the labels `Person{i}` and `Account{i}`.
- `SortingController` (`sorting_controller.dfy`):
  - `Person` is a datatype, because nothing changes a person after creation. Its `CompareTo` is a member.
  - The generator, the two sorts by age, and the `GetSortingData` loop.
- `KontoController` (`konto_controller.dfy`):
  - `BankAccount` is a class. Its `Balance` field is changed in place by `Deposit` and `Withdraw`.
  - The endpoints' lookup of the first account with a name.
  - The deposit and withdraw endpoints, modelled as methods over the shared account list.
  - The two sorts by balance over account references.
  - The generator, which allocates fresh accounts, and the `GetBankAccountSortingData` loop.

The account sorts reuse the generic algorithms through `BalanceKey`, a key read from the accounts' balances before the sort. A sort modifies only the array or list it is given, never an account. So this key equals each account's balance throughout. The results are restated in terms of the balances (`SortedByBalance`, `StableByBalance`).

Things outside the model are parameters:
- Randomness: each round of a benchmark takes a caller-supplied sample stream, `samples(round, i)`.
- The stopwatch: a caller-supplied reading, `stopwatch(algorithm, round)` milliseconds.

## Model

| member | source | states |
|---|---|---|
| `Ordering.CompareKeys` | Controllers/SortingController.cs:119 | the key comparison answers -1, 0 or 1, negative exactly when the first key is smaller, zero exactly when equal |
| `Ordering.WithKeyConcat` | Controllers/SortingController.cs:75-79 | the records of one key in a concatenation are those of the first part followed by those of the second, which is what makes splitting into halves order-preserving |
| `Ordering.SortedStableUnique` | Controllers/SortingController.cs:70-80 | two sorted rearrangements that keep each key's records in the same order are equal, so a stable sort such as merge sort has exactly one possible result |
| `Sorts.SelectionSort` | Controllers/SortingController.cs:51-67 | afterwards the array is non-decreasing by key and a permutation of its old contents; an array of length 0 or 1 is left as it was |
| `Sorts.SwapSettles` | Controllers/KontoController.cs:92-100 | swapping a least record of the unsorted suffix into position i extends the settled prefix by one and keeps the multiset |
| `Sorts.MergedPermutation` | Controllers/SortingController.cs:82-103 | the merge contains exactly the records of both inputs, so its length is `left.Count + right.Count` |
| `Sorts.MergedSorted` | Controllers/KontoController.cs:118-139 | merging two sorted lists gives a sorted list |
| `Sorts.MergedKeepsOrder` | Controllers/SortingController.cs:89-92 | taking the left record on ties (`<= 0`) puts, for every key, the left input's records of that key before the right input's, each in its own order |
| `Sorts.Merge` | Controllers/KontoController.cs:118-139 | the index loop computes the merge specification; its result has length `left.Count + right.Count`, holds exactly the records of both inputs, and is sorted when both inputs are |
| `Sorts.MergeSort` | Controllers/KontoController.cs:106-116 | the result is non-decreasing by key, a permutation of the input and stable; an input of length at most 1 is returned unchanged |
| `Benchmark.SizesFromShape` | Controllers/KontoController.cs:22 | the loop from `from` in steps of 1000 visits `(max - from) / 1000 + 1` sizes, the i-th being `from + 1000 * i`, and none when `from > max` |
| `Benchmark.DatasetSizesShape` | Controllers/SortingController.cs:20 | the sizes are `0, 1000, …, 1000 * (max / 1000)`, all at most `max`, and there are none for a negative `max` |
| `Benchmark.DefaultDatasetSizes` | Controllers/SortingController.cs:14 | with the default `maxDatasetSize = 5000` the sizes are `[0, 1000, 2000, 3000, 4000, 5000]` |
| `Benchmark.Next` | Controllers/SortingController.cs:46 | a draw of `Next(min, max)` lies in `[min, max)`, or is `min` when the bounds are equal |
| `Benchmark.DecimalString` | Controllers/SortingController.cs:46 | the index text is a non-empty string of decimal digits, one digit exactly for numbers below 10, starting with `0` only for zero itself (no leading zeros) |
| `Benchmark.DecimalStringValue` | Controllers/SortingController.cs:46 | read back as a decimal number, most significant digit first, the index text denotes the index itself |
| `Benchmark.DecimalStringInjective` | Controllers/KontoController.cs:82 | distinct indices have distinct decimal texts (a consequence of the texts denoting their indices) |
| `Benchmark.LabelInjective` | Controllers/KontoController.cs:82 | labels `prefix{i}` made from distinct indices differ |
| `SortingController.Person.CompareTo` | Controllers/SortingController.cs:116-120 | an absent other person gives 1; otherwise the answer is -1, 0 or 1 with the sign of the age comparison |
| `SortingController.CompareToIsAgeOrder` | Controllers/SortingController.cs:59 | the comparison both sorts make on two people is `Person.CompareTo` |
| `SortingController.GenerateRandomPeople` | Controllers/SortingController.cs:42-48 | exactly `count` people, the i-th named `Person{i}` and aged `Next(10, 100)` of the i-th sample, so every age lies in `[10, 100)` |
| `SortingController.GeneratedNamesDistinct` | Controllers/SortingController.cs:45-46 | no two generated people share a name |
| `SortingController.SelectionSort` | Controllers/SortingController.cs:51-67 | the list is sorted in place by age and is a permutation of its old contents; lists of length 0 or 1 are unchanged |
| `SortingController.MergeSort` | Controllers/SortingController.cs:70-80 | a new list that is sorted by age, a permutation of the input, keeps people of equal age in input order, and equals an input of length at most 1 |
| `SortingController.GetSortingData` | Controllers/SortingController.cs:14-40 | `DatasetSizes` is the size sequence of the loop; the three series have equal length; entry i of each time series is the stopwatch reading of round i |
| `KontoController.BankAccount.constructor` | Controllers/KontoController.cs:147-151 | a new account has the given name and opening balance |
| `KontoController.BankAccount.Deposit` | Controllers/KontoController.cs:154-157 | the balance becomes the old balance plus `amount`, unconditionally |
| `KontoController.BankAccount.Withdraw` | Controllers/KontoController.cs:160-168 | succeeds exactly when the old balance is at least `amount`; on success the balance drops by `amount` and is not negative; otherwise it is unchanged |
| `KontoController.BankAccount.CompareTo` | Controllers/KontoController.cs:171-175 | a null other account gives 1; otherwise the answer is -1, 0 or 1 with the sign of the balance comparison |
| `KontoController.FirstNamed` | Controllers/KontoController.cs:47 | returns no index exactly when no account has the name; otherwise an account with that name, with none before it |
| `KontoController.Deposit` | Controllers/KontoController.cs:45-55 | with no account of that name the answer is NotFound and no balance changes; otherwise only the first such account gains `amount`, and the answer carries its new balance |
| `KontoController.Withdraw` | Controllers/KontoController.cs:58-75 | NotFound with nothing changed when no account has the name; otherwise only the first such account is involved. It loses `amount` with an Ok answer when its balance covers it. Otherwise the balance is untouched and the answer is InsufficientFunds with the current balance |
| `KontoController.BalanceKey` | Controllers/KontoController.cs:174 | the key the account sorts compare by is, for every account of the list, its balance |
| `KontoController.BalanceKeyIsCompareTo` | Controllers/KontoController.cs:171-175 | for two accounts of the list, `BankAccount.CompareTo` answers exactly the comparison both sorts make with that key |
| `KontoController.SelectionSort` | Controllers/KontoController.cs:87-103 | the list of accounts is sorted in place by balance and is a permutation of its old contents; lists of length 0 or 1 are unchanged |
| `KontoController.MergeSort` | Controllers/KontoController.cs:106-116 | a new list that is sorted by balance, a permutation of the input, keeps accounts of equal balance in input order, and equals an input of length at most 1 |
| `KontoController.GenerateRandomBankAccounts` | Controllers/KontoController.cs:78-84 | exactly `count` new, distinct accounts, the i-th named `Account{i}`, every opening balance in `[100, 10000)` |
| `KontoController.AccountLabelsDistinct` | Controllers/KontoController.cs:82 | no two generated accounts share a name |
| `KontoController.GetBankAccountSortingData` | Controllers/KontoController.cs:16-42 | `DatasetSizes` is the size sequence of the loop; the three series have equal length; entry i of each time series is the stopwatch reading of round i |

## Left out

- `Balance` and `amount` are C# `decimal`; the model uses `int`. The generator only produces whole balances. Fractional amounts, decimal's 28-digit range and its overflow exception are not modelled.
- Integers are unbounded. The loop variable `size` is a 32-bit `int` in the source, and its overflow for `maxDatasetSize` close to `int.MaxValue` is not modelled.
- Randomness: `Random.Next(min, max)` is modelled as `min + sample % (max - min)` on a caller-supplied sample. The real generator's distribution is not modelled.
- Timing: the stopwatch readings are caller-supplied values, one per algorithm and round. `ElapsedMilliseconds` is converted to `double` in the series; the model keeps the natural number.
- The `iterations` parameter is unused by both endpoints and is not modelled.
- HTTP: result objects and their messages are reduced to `Response`: Ok with the new balance, InsufficientFunds (the 400 answer) with the current balance, and NotFound. The model does not carry the rest of the answers' fields:
  - every answer, including NotFound, echoes `AccountName`;
  - the deposit Ok answer also carries `AmountDeposited`;
  - the withdraw Ok answer also carries `AmountWithdrawn`;
  - the 400 answer also carries `RequestedAmount`.
- The shared static account list is an explicit parameter of the endpoints. Its initialiser `GenerateRandomBankAccounts(10)` is the generator called with count 10, and the model has no separate member for it. Unsynchronised access to the list from concurrent requests is not modelled.
- Lists hold no null records: the generators never produce one. A null element inside a list, where the source would throw, is not modelled. Only `CompareTo`'s null `other` argument is.
- `AccountName` and `Name`/`Age` have public setters in the source, but nothing calls them after construction. They are modelled as fixed: a `const` field and datatype fields.
- `Person` is a value. In the source it is a reference type, but no code changes a person, so aliasing cannot be observed.
- For people, the benchmark's `people.ToList()` copies are implied by value semantics. For accounts, the selection sort gets a fresh array holding the same references, and neither sort changes an account.
- The `CompareTo(str1, str2)` member at Controllers/SortingController.cs:123-126 has no parameter types and no body. It is dead code that does not compile, and it is not modelled.
- Program.cs (host builder, CORS, HTTPS redirection, controller mapping) is framework configuration and is not part of this model.
- Selection sort is not stable; the model claims no stability for it and does not exhibit an unstable run.
- The deposit endpoint does not validate `amount`. A negative deposit can make a balance negative, and `BankAccount.Deposit` states exactly that effect. No non-negativity invariant is claimed for the ledger.
