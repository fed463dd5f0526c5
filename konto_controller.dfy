/**
 * `BankAccountSortingController`: bank accounts whose balance the deposit and
 * withdraw endpoints change in place, the two sorts by balance, and the benchmark
 * loop of `GET /api/bankaccountsorting`.
 */
module KontoController {
  import opened Wrappers
  import opened Ordering
  import opened Benchmark
  import Sorts

  /** A named account. Its name is fixed at creation; its balance changes. */
  class BankAccount {
    const AccountName: string
    var Balance: int

    constructor (accountName: string, initialBalance: int)
      ensures AccountName == accountName && Balance == initialBalance
    {
      AccountName := accountName;
      Balance := initialBalance;
    }

    /** Adds `amount`, whatever its sign and whatever the balance. */
    method Deposit(amount: int)
      modifies this
      ensures Balance == old(Balance) + amount
    {
      Balance := Balance + amount;
    }

    /**
     * Takes `amount` out only when the balance covers it, and says whether it did;
     * a withdrawal that succeeds never leaves the balance negative.
     */
    method Withdraw(amount: int) returns (success: bool)
      modifies this
      ensures success <==> old(Balance) >= amount
      ensures success ==> Balance == old(Balance) - amount
      ensures !success ==> Balance == old(Balance)
      ensures success ==> Balance >= 0
    {
      if Balance >= amount {
        Balance := Balance - amount;
        return true;
      }
      return false;
    }

    /**
     * `IComparable<BankAccount>.CompareTo`: a null other account compares as
     * smaller (answer 1); otherwise the answer has the sign of the balance difference.
     */
    function CompareTo(other: BankAccount?): (r: int)
      reads this, other
      ensures other == null ==> r == 1
      ensures other != null ==> -1 <= r <= 1
      ensures other != null ==> (r < 0 <==> Balance < other.Balance)
      ensures other != null ==> (r == 0 <==> Balance == other.Balance)
    {
      if other == null then 1 else CompareKeys(Balance, other.Balance)
    }
  }

  // ---------------------------------------------------------------------------
  // The ledger endpoints

  /** What an endpoint answers: 200 with the new balance, 400 with the current one, or 404. */
  datatype Response = Ok(newBalance: int) | InsufficientFunds(currentBalance: int) | NotFound

  /** `FirstOrDefault(a => a.AccountName == accountName)`, as the index of the match. */
  function FirstNamed(accounts: seq<BankAccount>, accountName: string): (r: Option<nat>)
    ensures r.None? <==> forall i :: 0 <= i < |accounts| ==> accounts[i].AccountName != accountName
    ensures r.Some? ==> r.value < |accounts| && accounts[r.value].AccountName == accountName
    ensures r.Some? ==> forall i :: 0 <= i < r.value ==> accounts[i].AccountName != accountName
  {
    if accounts == [] then None
    else if accounts[0].AccountName == accountName then Some(0)
    else match FirstNamed(accounts[1..], accountName)
      case None => None
      case Some(k) => Some(k + 1)
  }

  /**
   * `POST deposit`: deposits into the first account with the given name; when no
   * account has that name, answers NotFound and changes nothing.
   */
  method Deposit(accounts: seq<BankAccount>, accountName: string, amount: int) returns (response: Response)
    modifies set a | a in accounts
    ensures FirstNamed(accounts, accountName).None? ==>
              response == NotFound && forall a | a in accounts :: a.Balance == old(a.Balance)
    ensures FirstNamed(accounts, accountName).Some? ==>
              var account := accounts[FirstNamed(accounts, accountName).value];
              && account.Balance == old(account.Balance) + amount
              && response == Ok(account.Balance)
              && forall a | a in accounts && a != account :: a.Balance == old(a.Balance)
  {
    var found := FirstNamed(accounts, accountName);
    if found.None? {
      return NotFound;
    }
    var account := accounts[found.value];
    account.Deposit(amount);
    response := Ok(account.Balance);
  }

  /**
   * `POST withdraw`: withdraws from the first account with the given name when its
   * balance covers the amount, answers InsufficientFunds with the untouched balance
   * when it does not, and NotFound, changing nothing, when no account has the name.
   */
  method Withdraw(accounts: seq<BankAccount>, accountName: string, amount: int) returns (response: Response)
    modifies set a | a in accounts
    ensures FirstNamed(accounts, accountName).None? ==>
              response == NotFound && forall a | a in accounts :: a.Balance == old(a.Balance)
    ensures FirstNamed(accounts, accountName).Some? ==>
              var account := accounts[FirstNamed(accounts, accountName).value];
              && (old(account.Balance) >= amount ==>
                    account.Balance == old(account.Balance) - amount && response == Ok(account.Balance))
              && (old(account.Balance) < amount ==>
                    account.Balance == old(account.Balance) && response == InsufficientFunds(account.Balance))
              && forall a | a in accounts && a != account :: a.Balance == old(a.Balance)
  {
    var found := FirstNamed(accounts, accountName);
    if found.None? {
      return NotFound;
    }
    var account := accounts[found.value];
    var success := account.Withdraw(amount);
    if success {
      response := Ok(account.Balance);
    } else {
      response := InsufficientFunds(account.Balance);
    }
  }

  // ---------------------------------------------------------------------------
  // Sorting accounts by balance

  ghost predicate SortedByBalance(s: seq<BankAccount>)
    reads set a | a in s
  {
    forall i, j :: 0 <= i < j < |s| ==> s[i].Balance <= s[j].Balance
  }

  /** The accounts of `s` holding `balance`, in their order in `s`. */
  ghost function WithBalance(s: seq<BankAccount>, balance: int): seq<BankAccount>
    reads set a | a in s
  {
    if s == [] then []
    else (if s[0].Balance == balance then [s[0]] else []) + WithBalance(s[1..], balance)
  }

  /** `r` keeps accounts of equal balance in the order they have in `s`. */
  ghost predicate StableByBalance(s: seq<BankAccount>, r: seq<BankAccount>)
    reads set a | a in s, set a | a in r
  {
    forall balance :: WithBalance(r, balance) == WithBalance(s, balance)
  }

  /**
   * The balances of `s` as they are now, as a key for the generic sorts. A sort
   * changes no balance, so this key is each account's balance throughout.
   */
  function BalanceKey(s: seq<BankAccount>): (key: BankAccount -> int)
    reads set a | a in s
    ensures forall a | a in s :: key(a) == a.Balance
  {
    var balances := map a | a in s :: a.Balance;
    a => if a in balances then balances[a] else 0
  }

  /**
   * On the accounts of `s`, the comparison the generic sorts make with this key is
   * `BankAccount.CompareTo`.
   */
  lemma BalanceKeyIsCompareTo(s: seq<BankAccount>, a: BankAccount, b: BankAccount)
    requires a in s && b in s
    ensures a.CompareTo(b) == CompareKeys(BalanceKey(s)(a), BalanceKey(s)(b))
  {
  }

  lemma SortedBalanceKey(s: seq<BankAccount>, key: BankAccount -> int)
    requires forall a | a in s :: key(a) == a.Balance
    ensures Sorted(s, key) <==> SortedByBalance(s)
  {
    assert forall i | 0 <= i < |s| :: key(s[i]) == s[i].Balance;
  }

  lemma {:induction false} WithKeyIsWithBalance(s: seq<BankAccount>, key: BankAccount -> int, balance: int)
    requires forall a | a in s :: key(a) == a.Balance
    ensures WithKey(s, key, balance) == WithBalance(s, balance)
  {
    if s != [] {
      assert s[0] in s;
      WithKeyIsWithBalance(s[1..], key, balance);
    }
  }

  /** `SelectionSort(accounts)`: sorts the list in place by balance. */
  method SelectionSort(accounts: array<BankAccount>)
    modifies accounts
    ensures SortedByBalance(accounts[..])
    ensures multiset(accounts[..]) == multiset(old(accounts[..]))
    ensures accounts.Length <= 1 ==> accounts[..] == old(accounts[..])
  {
    var key := BalanceKey(accounts[..]);
    ghost var before := accounts[..];
    Sorts.SelectionSort(accounts, key);
    forall a | a in accounts[..] ensures key(a) == a.Balance {
      assert a in multiset(accounts[..]);
      assert a in before;
    }
    SortedBalanceKey(accounts[..], key);
  }

  /** `MergeSort(accounts)`: a new list sorted by balance, keeping accounts of equal balance in input order. */
  method MergeSort(accounts: seq<BankAccount>) returns (r: seq<BankAccount>)
    ensures SortedByBalance(r)
    ensures multiset(r) == multiset(accounts)
    ensures StableByBalance(accounts, r)
    ensures |accounts| <= 1 ==> r == accounts
  {
    var key := BalanceKey(accounts);
    r := Sorts.MergeSort(accounts, key);
    forall a | a in r ensures key(a) == a.Balance {
      assert a in multiset(r);
    }
    SortedBalanceKey(r, key);
    forall balance ensures WithBalance(r, balance) == WithBalance(accounts, balance) {
      WithKeyIsWithBalance(r, key, balance);
      WithKeyIsWithBalance(accounts, key, balance);
    }
  }

  // ---------------------------------------------------------------------------
  // The generator and the benchmark loop

  /** The label of the i-th generated account. */
  function AccountLabel(i: nat): string {
    "Account" + DecimalString(i)
  }

  /**
   * `GenerateRandomBankAccounts(count)`: `count` new accounts; account i is labelled
   * `Account{i}` and opens with the balance `random.Next(100, 10000)` drawn from the
   * i-th sample.
   */
  method GenerateRandomBankAccounts(count: nat, samples: nat -> nat) returns (accounts: seq<BankAccount>)
    ensures |accounts| == count
    ensures forall i :: 0 <= i < count ==> fresh(accounts[i])
    ensures forall i, j :: 0 <= i < j < count ==> accounts[i] != accounts[j]
    ensures forall i :: 0 <= i < count ==> accounts[i].AccountName == AccountLabel(i)
    ensures forall i :: 0 <= i < count ==> accounts[i].Balance == Next(100, 10000, samples(i))
    ensures forall i :: 0 <= i < count ==> 100 <= accounts[i].Balance < 10000
  {
    accounts := [];
    var i := 0;
    while i < count
      invariant 0 <= i <= count && |accounts| == i
      invariant forall k :: 0 <= k < i ==> fresh(accounts[k])
      invariant forall k, l :: 0 <= k < l < i ==> accounts[k] != accounts[l]
      invariant forall k :: 0 <= k < i ==> accounts[k].AccountName == AccountLabel(k)
      invariant forall k :: 0 <= k < i ==> accounts[k].Balance == Next(100, 10000, samples(k))
    {
      var balance := Next(100, 10000, samples(i));
      var account := new BankAccount(AccountLabel(i), balance);
      accounts := accounts + [account];
      i := i + 1;
    }
    forall k | 0 <= k < count ensures 100 <= accounts[k].Balance < 10000 {
      var _ := Next(100, 10000, samples(k));
    }
  }

  /** No two generated accounts share a name. */
  lemma AccountLabelsDistinct(i: nat, j: nat)
    requires i != j
    ensures AccountLabel(i) != AccountLabel(j)
  {
    if AccountLabel(i) == AccountLabel(j) {
      LabelInjective("Account", i, j);
    }
  }

  /**
   * `GetBankAccountSortingData`: for each size 0, 1000, ... up to `maxDatasetSize`,
   * generate accounts, sort one copy of the list with each algorithm and record the
   * two elapsed times and the size. `samples(round, i)` is the i-th random draw of a
   * round and `stopwatch(algorithm, round)` the milliseconds the stopwatch reads.
   */
  method GetBankAccountSortingData(maxDatasetSize: int, samples: (nat, nat) -> nat, stopwatch: (Algorithm, nat) -> nat)
    returns (selectionSortTimes: seq<nat>, mergeSortTimes: seq<nat>, datasetSizes: seq<int>)
    ensures datasetSizes == DatasetSizes(maxDatasetSize)
    ensures |selectionSortTimes| == |datasetSizes| && |mergeSortTimes| == |datasetSizes|
    ensures forall round :: 0 <= round < |datasetSizes| ==>
              selectionSortTimes[round] == stopwatch(SelectionSortRun, round) &&
              mergeSortTimes[round] == stopwatch(MergeSortRun, round)
  {
    selectionSortTimes, mergeSortTimes, datasetSizes := [], [], [];
    var size := 0;
    while size <= maxDatasetSize
      invariant size == Step * |datasetSizes|
      invariant datasetSizes + SizesFrom(size, maxDatasetSize) == DatasetSizes(maxDatasetSize)
      invariant |selectionSortTimes| == |datasetSizes| && |mergeSortTimes| == |datasetSizes|
      invariant forall round :: 0 <= round < |datasetSizes| ==>
                  selectionSortTimes[round] == stopwatch(SelectionSortRun, round) &&
                  mergeSortTimes[round] == stopwatch(MergeSortRun, round)
      decreases maxDatasetSize - size
    {
      SizesStep(datasetSizes, size, maxDatasetSize);
      var round := |datasetSizes|;
      var bankAccounts := GenerateRandomBankAccounts(size, i => samples(round, i));

      var copy := new BankAccount[|bankAccounts|](i requires 0 <= i < |bankAccounts| => bankAccounts[i]);
      SelectionSort(copy);
      selectionSortTimes := selectionSortTimes + [stopwatch(SelectionSortRun, round)];

      var sorted := MergeSort(bankAccounts);
      mergeSortTimes := mergeSortTimes + [stopwatch(MergeSortRun, round)];

      datasetSizes := datasetSizes + [size];
      size := size + Step;
    }
    SizesDone(datasetSizes, size, maxDatasetSize);
  }
}
