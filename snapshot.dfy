/** The scan of `get_renbtc_mint`, which sorts every mint log into one
    outcome and adds the resolved amounts up per beneficiary, and the
    self-check of `main`, which counts set differences by hand. */
module Snapshot {
  import opened Values
  import opened Resolver
  import opened Registry

  /** A `LogMint` event as the scan sees it: the `_to` argument of the event
      and the transaction that emitted it, already fetched. */
  datatype MintLog = MintLog(to: string, tx: Tx)

  /** The three keys of the `stats` counter. */
  datatype Stats = Stats(contractsSkipped: nat, addressSkipped: nat, empty: nat)

  /** What one log does to the scan: bump one of the three counters, credit
      an amount to a beneficiary, or raise and end the scan. */
  datatype Outcome =
    | SkipContract
    | SkipAddress
    | Empty
    | Credit(user: Field, amount: int)
    | Crash(error: Error)

  /** The resolution the scan calls on each transaction: `getMintersInfo`
      over a fixed table and decoder, as `Resolution` builds it. */
  type Resolve = Tx -> Result<Option<Pair>>

  function Resolution(parsers: Lookup, dec: Decoder): Resolve
  {
    tx => GetMintersInfo(parsers, dec, tx)
  }

  /** One turn of the inner loop. The event's `_to` is checked first, the
      transaction's `to` second (a contract creation has none, and None is
      never in the skip list); only then is the transaction resolved. The
      amount must be an integer for `mints[user] += amount`. */
  function Classify(log: MintLog, skip: set<string>, resolve: Resolve): Outcome
  {
    if log.to in skip then SkipContract
    else if log.tx.to.Some? && log.tx.to.value in skip then SkipAddress
    else
      match resolve(log.tx)
      case Err(e) => Crash(e)
      case Ok(None) => Empty
      case Ok(Some((user, amount))) =>
        if amount.Some? && amount.value.Int? then Credit(user, amount.value.n) else Crash(BadAmount)
  }

  function Outcomes(logs: seq<MintLog>, skip: set<string>, resolve: Resolve): (os: seq<Outcome>)
    ensures |os| == |logs|
  {
    seq(|logs|, i requires 0 <= i < |logs| => Classify(logs[i], skip, resolve))
  }

  // ---------------------------------------------------------------------------
  // Reference definitions over a sequence of outcomes, each read from the end
  // so that they follow the scan one log at a time.

  /** The exception that ends the scan: that of the first log that raises. */
  function FirstCrash(os: seq<Outcome>): Option<Error>
  {
    if os == [] then None
    else match FirstCrash(os[..|os| - 1])
      case Some(e) => Some(e)
      case None => if os[|os| - 1].Crash? then Some(os[|os| - 1].error) else None
  }

  /** The (beneficiary, amount) pairs credited, in log order. */
  function Credits(os: seq<Outcome>): seq<(Field, int)>
  {
    if os == [] then []
    else Credits(os[..|os| - 1]) + (if os[|os| - 1].Credit? then [(os[|os| - 1].user, os[|os| - 1].amount)] else [])
  }

  /** The total credited to one beneficiary. */
  function Total(credits: seq<(Field, int)>, user: Field): int
  {
    if credits == [] then 0
    else Total(credits[..|credits| - 1], user) + (if credits[|credits| - 1].0 == user then credits[|credits| - 1].1 else 0)
  }

  /** The value of the `stats` counter after these outcomes. */
  function Tally(os: seq<Outcome>): Stats
  {
    if os == [] then Stats(0, 0, 0)
    else
      var s := Tally(os[..|os| - 1]);
      match os[|os| - 1]
      case SkipContract => s.(contractsSkipped := s.contractsSkipped + 1)
      case SkipAddress => s.(addressSkipped := s.addressSkipped + 1)
      case Empty => s.(empty := s.empty + 1)
      case _ => s
  }

  function Count(os: seq<Outcome>, o: Outcome): nat
  {
    if os == [] then 0 else Count(os[..|os| - 1], o) + (if os[|os| - 1] == o then 1 else 0)
  }

  // ---------------------------------------------------------------------------
  // The scan

  /** `get_renbtc_mint` over logs already fetched: the `mints` counter,
      filtered to its non-zero totals, and the `stats` counter; or the
      exception of the first log that raises. */
  method GetRenbtcMint(logs: seq<MintLog>, skip: set<string>, resolve: Resolve)
    returns (r: Result<(map<Field, int>, Stats)>)
    ensures var os := Outcomes(logs, skip, resolve);
      && (r.Err? <==> FirstCrash(os).Some?)
      && (r.Err? ==> r.error == FirstCrash(os).value)
    ensures var os := Outcomes(logs, skip, resolve);
      r.Ok? ==>
        && r.value.1 == Tally(os)
        && (forall user :: user in r.value.0 <==> Total(Credits(os), user) != 0)
        && (forall user | user in r.value.0 :: r.value.0[user] == Total(Credits(os), user))
  {
    ghost var os := Outcomes(logs, skip, resolve);
    var mints: map<Field, int> := map[];
    var stats := Stats(0, 0, 0);
    var i := 0;
    while i < |logs|
      invariant 0 <= i <= |logs|
      invariant FirstCrash(os[..i]).None?
      invariant stats == Tally(os[..i])
      invariant Counts(mints, Credits(os[..i]))
    {
      var o := Classify(logs[i], skip, resolve);
      ghost var credits := Credits(os[..i]);
      ScanStep(os, i);
      match o {
        case SkipContract =>
          stats := stats.(contractsSkipped := stats.contractsSkipped + 1);
        case SkipAddress =>
          stats := stats.(addressSkipped := stats.addressSkipped + 1);
        case Empty =>
          stats := stats.(empty := stats.empty + 1);
        case Credit(user, amount) =>
          var before := if user in mints then mints[user] else 0;
          CountsCredit(mints, credits, user, amount);
          mints := mints[user := before + amount];
        case Crash(e) =>
          PrefixCrash(os, i + 1);
          return Err(e);
      }
      i := i + 1;
    }
    assert os[..|logs|] == os;
    var filtered := NonZero(mints);
    NonZeroTotals(mints, Credits(os));
    return Ok((filtered, stats));
  }

  /** `valfilter(bool, ...)`: the entries whose value is not zero. */
  function NonZero(m: map<Field, int>): map<Field, int>
  {
    map user | user in m && m[user] != 0 :: m[user]
  }

  /** Filtering a counter that holds the totals keeps exactly the
      beneficiaries with a non-zero total, each with its total. */
  lemma NonZeroTotals(mints: map<Field, int>, credits: seq<(Field, int)>)
    requires Counts(mints, credits)
    ensures forall user :: user in NonZero(mints) <==> Total(credits, user) != 0
    ensures forall user | user in NonZero(mints) :: NonZero(mints)[user] == Total(credits, user)
  {
  }

  /** What one more log does to each reference definition. */
  lemma ScanStep(os: seq<Outcome>, i: nat)
    requires i < |os|
    ensures var o, before, after := os[i], os[..i], os[..i + 1];
      && Credits(after) == Credits(before) + (if o.Credit? then [(o.user, o.amount)] else [])
      && (!o.Credit? ==> Credits(after) == Credits(before))
      && (FirstCrash(before).None? ==> FirstCrash(after) == (if o.Crash? then Some(o.error) else None))
      && (o.SkipContract? ==> Tally(after) == Tally(before).(contractsSkipped := Tally(before).contractsSkipped + 1))
      && (o.SkipAddress? ==> Tally(after) == Tally(before).(addressSkipped := Tally(before).addressSkipped + 1))
      && (o.Empty? ==> Tally(after) == Tally(before).(empty := Tally(before).empty + 1))
      && (o.Credit? ==> Tally(after) == Tally(before))
  {
    assert os[..i + 1][..i] == os[..i] && os[..i + 1][i] == os[i];
  }

  /** The `mints` counter holds the totals of these credits: every key with
      its total, and every beneficiary not a key with nothing credited. */
  ghost predicate Counts(mints: map<Field, int>, credits: seq<(Field, int)>)
  {
    && (forall user | user in mints :: mints[user] == Total(credits, user))
    && (forall user :: user !in mints ==> Total(credits, user) == 0)
  }

  /** `mints[user] += amount` keeps the counter in step with one more credit. */
  lemma CountsCredit(mints: map<Field, int>, credits: seq<(Field, int)>, user: Field, amount: int)
    requires Counts(mints, credits)
    ensures Counts(mints[user := (if user in mints then mints[user] else 0) + amount], credits + [(user, amount)])
  {
    var c := credits + [(user, amount)];
    assert c[..|c| - 1] == credits;
  }

  /** A crash in a prefix is the crash of the whole. */
  lemma {:induction false} PrefixCrash(os: seq<Outcome>, k: nat)
    requires k <= |os| && FirstCrash(os[..k]).Some?
    ensures FirstCrash(os) == FirstCrash(os[..k])
    decreases |os| - k
  {
    if k < |os| {
      assert os[..k + 1][..k] == os[..k];
      PrefixCrash(os, k + 1);
    } else {
      assert os[..k] == os;
    }
  }

  // ---------------------------------------------------------------------------
  // What the scan promises

  /** A log of a skip-listed contract is counted as skipped before its
      transaction's own recipient is looked at, and never reaches the
      resolution, so neither the table nor the decoder matters. */
  lemma SkippedContractNeverDecoded(log: MintLog, skip: set<string>, resolve: Resolve, resolve': Resolve)
    requires log.to in skip
    ensures Classify(log, skip, resolve) == SkipContract
    ensures Classify(log, skip, resolve) == Classify(log, skip, resolve')
  {
  }

  /** The recipient check applies only to logs whose event passed the first
      check, and it too stops before any resolution. */
  lemma SkippedAddressNeverDecoded(log: MintLog, skip: set<string>, resolve: Resolve, resolve': Resolve)
    requires log.to !in skip && log.tx.to.Some? && log.tx.to.value in skip
    ensures Classify(log, skip, resolve) == SkipAddress
    ensures Classify(log, skip, resolve) == Classify(log, skip, resolve')
  {
  }

  /** A log that passes both checks is credited exactly when it resolves to
      a pair with an integer amount, with that pair; it is counted as empty
      exactly when its selector is unknown. */
  lemma ResolvedLogCredited(log: MintLog, skip: set<string>, resolve: Resolve, user: Field, amount: int)
    requires log.to !in skip && !(log.tx.to.Some? && log.tx.to.value in skip)
    ensures Classify(log, skip, resolve) == Credit(user, amount) <==>
      resolve(log.tx) == Ok(Some((user, Some(Int(amount)))))
    ensures Classify(log, skip, resolve) == Empty <==> resolve(log.tx) == Ok(None)
  {
  }

  /** Through `PARSERS`, with a decoder that respects arity, a log raises
      only for calldata of the wrong type, bad hex, a failed decode or an
      amount that is not an integer. */
  lemma RegistryScanCrashes(log: MintLog, skip: set<string>, dec: Decoder)
    requires RespectsArity(dec)
    ensures var o := Classify(log, skip, Resolution(Parsers, dec));
      o.Crash? ==> o.error in {UnsupportedInput, BadHex, DecodeFailed, BadAmount}
  {
    RegistryResolution(dec, log.tx, false);
  }

  /** Each log lands in exactly one of the four tallies: the three counters
      and the credits. */
  lemma {:induction false} Accounting(os: seq<Outcome>)
    requires FirstCrash(os).None?
    ensures var s := Tally(os);
      s.contractsSkipped + s.addressSkipped + s.empty + |Credits(os)| == |os|
    ensures var s := Tally(os);
      && s.contractsSkipped == Count(os, SkipContract)
      && s.addressSkipped == Count(os, SkipAddress)
      && s.empty == Count(os, Empty)
  {
    if os != [] {
      var init := os[..|os| - 1];
      assert FirstCrash(init).None?;
      Accounting(init);
    }
  }

  /** The scan raises exactly when some log raises. */
  lemma {:induction false} CrashIffSomeLogCrashes(os: seq<Outcome>)
    ensures FirstCrash(os).Some? <==> exists k | 0 <= k < |os| :: os[k].Crash?
    ensures FirstCrash(os).Some? ==>
      exists k | 0 <= k < |os| :: (os[k] == Crash(FirstCrash(os).value) && forall j | 0 <= j < k :: !os[j].Crash?)
  {
    if os != [] {
      var init := os[..|os| - 1];
      CrashIffSomeLogCrashes(init);
      if FirstCrash(init).Some? {
        var k :| 0 <= k < |init| && init[k] == Crash(FirstCrash(init).value) && forall j | 0 <= j < k :: !init[j].Crash?;
        assert os[k] == init[k];
        assert forall j | 0 <= j < k :: os[j] == init[j];
      } else {
        assert forall j | 0 <= j < |init| :: os[j] == init[j];
        if os[|os| - 1].Crash? {
          assert forall j | 0 <= j < |os| - 1 :: !os[j].Crash?;
        }
      }
    }
  }

  // ---------------------------------------------------------------------------
  // The self-check in `main`

  /** The counting loop of `main`: for each new minter, one for
      `oldminters` if it is not an old minter and one for `finalsnapshot` if
      it is not in the final snapshot. Its results are the two set
      differences' sizes, so both asserts of `main` hold. */
  method CountMissing(newMinters: set<string>, oldMinters: set<string>, finalSnapshot: set<string>)
    returns (missingOld: nat, missingFinal: nat)
    ensures missingOld == |newMinters - oldMinters|
    ensures missingFinal == |newMinters - finalSnapshot|
  {
    missingOld, missingFinal := 0, 0;
    var remaining := newMinters;
    while remaining != {}
      invariant remaining <= newMinters
      invariant missingOld == |(newMinters - remaining) - oldMinters|
      invariant missingFinal == |(newMinters - remaining) - finalSnapshot|
      decreases |remaining|
    {
      var address :| address in remaining;
      Visit(newMinters, remaining, address, oldMinters);
      Visit(newMinters, remaining, address, finalSnapshot);
      if address !in oldMinters {
        missingOld := missingOld + 1;
      }
      if address !in finalSnapshot {
        missingFinal := missingFinal + 1;
      }
      remaining := remaining - {address};
    }
    assert newMinters - remaining == newMinters;
  }

  /** Moving one address from the unvisited to the visited addresses. */
  lemma Visit(all: set<string>, remaining: set<string>, address: string, other: set<string>)
    requires address in remaining && remaining <= all
    ensures |(all - (remaining - {address})) - other| ==
            |(all - remaining) - other| + (if address in other then 0 else 1)
  {
    assert all - (remaining - {address}) == (all - remaining) + {address};
    OneMore(all - remaining, address, other);
  }

  /** Visiting one more address adds it to a difference exactly when it is
      absent from the subtracted set. */
  lemma OneMore(seen: set<string>, address: string, other: set<string>)
    requires address !in seen
    ensures |(seen + {address}) - other| == |seen - other| + (if address in other then 0 else 1)
  {
    if address in other {
      assert (seen + {address}) - other == seen - other;
    } else {
      assert (seen + {address}) - other == (seen - other) + {address};
    }
  }
}
