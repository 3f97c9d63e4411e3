/** The staking ledger engine: two address-keyed stake tables, `staked`
    (everything currently held) and `currentStaked` (the weight for the
    payout round in progress), updated block by block from the diff, with a
    score snapshot written at every payout height. */
module Ledger {
  import opened Decimal
  import opened Sums
  import opened Diff

  const STAKE_SIZE: nat := 100000
  const STAKE_START: int := 370000
  const PAYOUT_INTERVAL: int := 10000

  /** A stake entry; a value, so a copy never aliases the entry it was copied from. */
  datatype Entry = Entry(amount: nat, score: nat)

  /** An entry rendered as decimal text for the query endpoints. */
  datatype EntryText = EntryText(amount: string, score: string)

  type Table = map<string, Entry>

  /** The state the engine keeps: the two tables and the snapshots written so far, by height. */
  datatype Tables = Tables(staked: Table, current: Table, history: map<int, map<string, string>>)

  // ---------------------------------------------------------------------------
  // Specification of one block

  /** A created output counts iff its value is a digit string that is a multiple of the stake size. */
  predicate Qualifies(amount: string) {
    IsDigitString(amount) && ParseDecimal(amount) % STAKE_SIZE == 0
  }

  /** The entry an address holds, or the zero entry a first deposit starts from. */
  function EntryOr0(t: Table, a: string): Entry {
    if a in t then t[a] else Entry(0, 0)
  }

  /** The effect of one created output on `staked`. */
  function Credit(t: Table, u: NewUtxo): (r: Table)
    ensures forall k :: k != u.address ==> (k in r <==> k in t) && (k in t ==> r[k] == t[k])
    ensures !Qualifies(u.amount) ==> r == t
    ensures Qualifies(u.amount) ==>
              u.address in r &&
              r[u.address].amount == EntryOr0(t, u.address).amount + ParseDecimal(u.amount) &&
              r[u.address].score == EntryOr0(t, u.address).score + ParseDecimal(u.amount) / STAKE_SIZE
  {
    if Qualifies(u.amount) then
      var v := ParseDecimal(u.amount);
      var e := EntryOr0(t, u.address);
      t[u.address := Entry(e.amount + v, e.score + v / STAKE_SIZE)]
    else t
  }

  /** The creations of a block applied in order. */
  function CreditAll(t: Table, us: seq<NewUtxo>): (r: Table)
    ensures t.Keys <= r.Keys
    ensures forall k :: k in r && k !in t ==> k in Recipients(us)
  {
    if us == [] then t
    else
      var p := us[..|us| - 1];
      assert Recipients(p) <= Recipients(us) by {
        forall k | k in Recipients(p) ensures k in Recipients(us) {
          var i :| 0 <= i < |p| && p[i].address == k;
          assert us[i] == p[i];
        }
      }
      Credit(CreditAll(t, p), us[|us| - 1])
  }

  /** The addresses a run of creations pays to. */
  function Recipients(us: seq<NewUtxo>): set<string> {
    set i | 0 <= i < |us| :: us[i].address
  }

  /** The addresses a block spends from. */
  function SpentAddresses(ds: seq<DelUtxo>): set<string> {
    set i | 0 <= i < |ds| :: ds[i].address
  }

  /** JavaScript's integer division: the quotient rounded toward zero. */
  function TruncQuot(a: int, b: int): int
    requires b > 0
  {
    if a >= 0 then a / b else -((-a) / b)
  }

  /** JavaScript's `%` on integers: what is left of the dividend after the
      truncated quotient, with the sign of the dividend. */
  function TruncRem(a: int, b: int): (r: int)
    requires b > 0
    ensures a == b * TruncQuot(a, b) + r
    ensures -b < r < b
    ensures a >= 0 ==> r >= 0
    ensures a < 0 ==> r <= 0
  {
    if a >= 0 then a % b else -((-a) % b)
  }

  /** The payout-boundary test as the engine writes it. */
  predicate IsPayoutHeight(h: int)
    ensures IsPayoutHeight(h) ==> h >= STAKE_START + PAYOUT_INTERVAL && (h - STAKE_START) % PAYOUT_INTERVAL == 0
  {
    TruncRem(h - STAKE_START, PAYOUT_INTERVAL) == 0 && h > STAKE_START
  }

  /** The snapshot text of a table: each address's score as decimal text. */
  function ScoreSnapshot(t: Table): (p: map<string, string>)
    ensures p.Keys == t.Keys
    ensures forall k :: k in p ==> IsCanonical(p[k]) && ParseDecimal(p[k]) == t[k].score
  {
    var p := map k | k in t :: FormatDecimal(t[k].score);
    assert forall k :: k in p ==> ParseDecimal(p[k]) == t[k].score by {
      forall k | k in p { ParseFormat(t[k].score); }
    }
    p
  }

  /** The whole effect of one block: creations, then spends, then the payout boundary. */
  function ApplyDiff(s: Tables, height: int, news: seq<NewUtxo>, dels: seq<DelUtxo>): (r: Tables)
    ensures forall i :: 0 <= i < |dels| ==> dels[i].address !in r.staked && dels[i].address !in r.current
    ensures forall k :: k in r.staked ==> k in s.staked || k in Recipients(news)
    ensures IsPayoutHeight(height) ==> r.current == r.staked && r.history.Keys == s.history.Keys + {height}
    ensures !IsPayoutHeight(height) ==> r.history == s.history && r.current.Keys <= s.current.Keys
  {
    var spent := SpentAddresses(dels);
    var staked := CreditAll(s.staked, news) - spent;
    var current := s.current - spent;
    if IsPayoutHeight(height) then Tables(staked, staked, s.history[height := ScoreSnapshot(current)])
    else Tables(staked, current, s.history)
  }

  // ---------------------------------------------------------------------------
  // Invariants

  /** Every entry holds a whole number of stakes and its score counts them. */
  predicate WellFormed(t: Table) {
    forall k :: k in t ==> t[k].amount == t[k].score * STAKE_SIZE
  }

  /** The period table never holds more than the all-time table. */
  predicate Dominated(c: Table, s: Table) {
    forall k :: k in c ==> k in s && c[k].amount <= s[k].amount && c[k].score <= s[k].score
  }

  predicate Consistent(s: Tables) {
    WellFormed(s.staked) && WellFormed(s.current) && Dominated(s.current, s.staked)
  }

  // ---------------------------------------------------------------------------
  // Query views

  /** The key under which the string caches publish an address: "..." and the address from its 21st character on. */
  function CacheKey(k: string): (ck: string)
    ensures |k| <= 20 ==> ck == "..."
    ensures |k| > 20 ==> |ck| == |k| - 17 && ck[..3] == "..." && forall i :: 20 <= i < |k| ==> ck[i - 17] == k[i]
  {
    "..." + (if |k| >= 20 then k[20..] else "")
  }

  function Render(e: Entry): EntryText {
    EntryText(FormatDecimal(e.amount), FormatDecimal(e.score))
  }

  /** `c` is a string cache of `t`: each address's key is published, and each
      published value is the rendering of some address with that key (the one
      written last when two addresses share a key). */
  predicate IsCacheOf(c: map<string, EntryText>, t: Table) {
    (forall k :: k in t ==> CacheKey(k) in c) &&
    (forall ck {:trigger c[ck]} :: ck in c ==> exists k :: k in t && CacheKey(k) == ck && c[ck] == Render(t[k]))
  }

  predicate CacheKeyInjective(t: Table) {
    forall k1, k2 :: k1 in t && k2 in t && CacheKey(k1) == CacheKey(k2) ==> k1 == k2
  }

  ghost function Amounts(t: Table): map<string, nat> {
    map k | k in t :: t[k].amount
  }

  ghost function Scores(t: Table): map<string, nat> {
    map k | k in t :: t[k].score
  }

  // ---------------------------------------------------------------------------
  // The loops of the per-block callback and of the stats endpoint

  /** Writes out a table's scores as text, one address at a time. */
  method RenderScores(t: Table) returns (payout: map<string, string>)
    ensures payout == ScoreSnapshot(t)
  {
    payout := map[];
    var todo := t.Keys;
    while todo != {}
      invariant todo <= t.Keys
      invariant payout.Keys == t.Keys - todo
      invariant forall k :: k in payout ==> payout[k] == FormatDecimal(t[k].score)
      decreases |todo|
    {
      var k :| k in todo;
      payout := payout[k := FormatDecimal(t[k].score)];
      todo := todo - {k};
    }
  }

  /** Copies a table field by field into a fresh one. */
  method CopyTable(t: Table) returns (c: Table)
    ensures c == t
  {
    c := map[];
    var todo := t.Keys;
    while todo != {}
      invariant todo <= t.Keys
      invariant c.Keys == t.Keys - todo
      invariant forall k :: k in c ==> c[k] == t[k]
      decreases |todo|
    {
      var k :| k in todo;
      c := c[k := Entry(t[k].amount, t[k].score)];
      todo := todo - {k};
    }
  }

  /** Rebuilds a string cache, visiting the addresses in some order. */
  method RenderCache(t: Table) returns (c: map<string, EntryText>)
    ensures IsCacheOf(c, t)
  {
    c := map[];
    var todo := t.Keys;
    while todo != {}
      invariant todo <= t.Keys
      invariant forall k :: k in t && k !in todo ==> CacheKey(k) in c
      invariant forall ck {:trigger c[ck]} :: ck in c ==> exists k :: k in t && k !in todo && CacheKey(k) == ck && c[ck] == Render(t[k])
      decreases |todo|
    {
      var k :| k in todo;
      c := c[CacheKey(k) := Render(t[k])];
      todo := todo - {k};
    }
  }

  /** The total amount of a table, summed one address at a time. */
  method SumAmounts(t: Table) returns (total: nat)
    ensures total == SumValues(Amounts(t))
  {
    total := 0;
    ghost var rest := Amounts(t);
    var todo := t.Keys;
    while todo != {}
      invariant todo == rest.Keys
      invariant forall k :: k in rest ==> k in t && rest[k] == t[k].amount
      invariant total + SumValues(rest) == SumValues(Amounts(t))
      decreases |todo|
    {
      var k :| k in todo;
      SumValuesRemove(rest, k);
      total := total + t[k].amount;
      rest := rest - {k};
      todo := todo - {k};
    }
    assert rest == map[];
  }

  // ---------------------------------------------------------------------------
  // The engine

  class StakingLedger {
    var staked: Table
    var currentStaked: Table
    var stakedString: map<string, EntryText>
    var currentStakedString: map<string, EntryText>
    var history: map<int, map<string, string>>
    /** The height of the last block applied; blocks arrive strictly in increasing order. */
    ghost var lastHeight: int

    function Abstract(): Tables
      reads this
    {
      Tables(staked, currentStaked, history)
    }

    ghost predicate Valid()
      reads this
    {
      Consistent(Abstract()) &&
      IsCacheOf(stakedString, staked) &&
      IsCacheOf(currentStakedString, currentStaked) &&
      forall h :: h in history ==> h <= lastHeight
    }

    /** Both tables start empty, before the first staking block. */
    constructor ()
      ensures Valid()
      ensures staked == map[] && currentStaked == map[] && history == map[]
      ensures lastHeight == STAKE_START - 1
    {
      staked := map[];
      currentStaked := map[];
      stakedString := map[];
      currentStakedString := map[];
      history := map[];
      lastHeight := STAKE_START - 1;
    }

    /** The per-block callback: apply creations, then spends, then the payout boundary, then refresh the caches. */
    method ApplyBlock(height: int, newUtxos: seq<NewUtxo>, delUtxos: seq<DelUtxo>)
      requires Valid()
      requires height > lastHeight
      modifies this
      ensures Valid()
      ensures lastHeight == height
      ensures Abstract() == ApplyDiff(old(Abstract()), height, newUtxos, delUtxos)
      ensures forall h :: h in old(history) ==> h in history && history[h] == old(history)[h]
    {
      ApplyTables(height, newUtxos, delUtxos);
      RefreshCaches();
    }

    /** The table updates of the callback, with the caches left stale. */
    method ApplyTables(height: int, newUtxos: seq<NewUtxo>, delUtxos: seq<DelUtxo>)
      requires Consistent(Abstract())
      requires forall h :: h in history ==> h < height
      modifies this`staked, this`currentStaked, this`history, this`lastHeight
      ensures Consistent(Abstract())
      ensures lastHeight == height
      ensures forall h :: h in history ==> h <= lastHeight
      ensures Abstract() == ApplyDiff(old(Abstract()), height, newUtxos, delUtxos)
    {
      ghost var s0 := Abstract();
      InsertCreations(newUtxos);
      DeleteSpent(delUtxos);
      CloseRound(height);
      ApplyDiffConsistent(s0, height, newUtxos, delUtxos);
      lastHeight := height;
    }

    /** At a payout height: write the period table's scores out under the height, then rebase it on a copy of `staked`. */
    method CloseRound(height: int)
      modifies this`history, this`currentStaked
      ensures IsPayoutHeight(height) ==>
                history == old(history)[height := ScoreSnapshot(old(currentStaked))] && currentStaked == staked
      ensures !IsPayoutHeight(height) ==> history == old(history) && currentStaked == old(currentStaked)
    {
      if IsPayoutHeight(height) {
        var payout := RenderScores(currentStaked);
        history := history[height := payout];
        currentStaked := CopyTable(staked);
      }
    }

    /** The last step of the callback: rebuild both string caches from the tables. */
    method RefreshCaches()
      modifies this`stakedString, this`currentStakedString
      ensures IsCacheOf(stakedString, staked) && IsCacheOf(currentStakedString, currentStaked)
    {
      stakedString := RenderCache(staked);
      currentStakedString := RenderCache(currentStaked);
    }

    /** The first loop of the callback: credit every qualifying creation to `staked`. */
    method InsertCreations(newUtxos: seq<NewUtxo>)
      modifies this`staked
      ensures staked == CreditAll(old(staked), newUtxos)
    {
      for i := 0 to |newUtxos|
        invariant staked == CreditAll(old(staked), newUtxos[..i])
      {
        var u := newUtxos[i];
        assert newUtxos[..i + 1][..i] == newUtxos[..i];
        if Qualifies(u.amount) {
          var v := ParseDecimal(u.amount);
          if u.address !in staked {
            staked := staked[u.address := Entry(0, 0)];
          }
          staked := staked[u.address := Entry(staked[u.address].amount + v, staked[u.address].score + v / STAKE_SIZE)];
        }
      }
      assert newUtxos[..|newUtxos|] == newUtxos;
    }

    /** The second loop of the callback: drop every spending address from both tables. */
    method DeleteSpent(delUtxos: seq<DelUtxo>)
      modifies this`staked, this`currentStaked
      ensures staked == old(staked) - SpentAddresses(delUtxos)
      ensures currentStaked == old(currentStaked) - SpentAddresses(delUtxos)
    {
      for i := 0 to |delUtxos|
        invariant staked == old(staked) - SpentAddresses(delUtxos[..i])
        invariant currentStaked == old(currentStaked) - SpentAddresses(delUtxos[..i])
      {
        var a := delUtxos[i].address;
        assert SpentAddresses(delUtxos[..i + 1]) == SpentAddresses(delUtxos[..i]) + {a} by {
          assert delUtxos[..i + 1][..i] == delUtxos[..i];
        }
        if a in staked {
          staked := staked - {a};
        }
        if a in currentStaked {
          currentStaked := currentStaked - {a};
        }
      }
      assert delUtxos[..|delUtxos|] == delUtxos;
    }

    /** The /stats endpoint: the total amount staked in the current round, as decimal text. */
    method Stats() returns (totalStaked: string)
      ensures IsCanonical(totalStaked)
      ensures ParseDecimal(totalStaked) == SumValues(Amounts(currentStaked))
    {
      var total := SumAmounts(currentStaked);
      totalStaked := FormatDecimal(total);
      ParseFormat(total);
    }
  }

  // ---------------------------------------------------------------------------
  // Properties of the specification

  /** Applying creations only ever adds to holdings: no address disappears, no amount or score drops. */
  lemma {:induction false} CreditAllGrows(t: Table, us: seq<NewUtxo>)
    ensures forall k :: k in t ==> k in CreditAll(t, us) &&
                                   CreditAll(t, us)[k].amount >= t[k].amount &&
                                   CreditAll(t, us)[k].score >= t[k].score
  {
    if us != [] {
      CreditAllGrows(t, us[..|us| - 1]);
    }
  }

  /** Creations keep every entry a whole number of stakes with its score counting them. */
  lemma {:induction false} CreditAllWellFormed(t: Table, us: seq<NewUtxo>)
    requires WellFormed(t)
    ensures WellFormed(CreditAll(t, us))
  {
    if us != [] {
      var t' := CreditAll(t, us[..|us| - 1]);
      CreditAllWellFormed(t, us[..|us| - 1]);
      var u := us[|us| - 1];
      if Qualifies(u.amount) {
        var v := ParseDecimal(u.amount);
        assert v == (v / STAKE_SIZE) * STAKE_SIZE;
      }
    }
  }

  /** An address is in `staked` after the creations iff it was before or some creation to it qualified. */
  lemma {:induction false} CreditAllKeys(t: Table, us: seq<NewUtxo>, a: string)
    ensures a in CreditAll(t, us) <==>
            a in t || exists i :: 0 <= i < |us| && us[i].address == a && Qualifies(us[i].amount)
  {
    if us != [] {
      var p := us[..|us| - 1];
      CreditAllKeys(t, p, a);
      assert forall i :: 0 <= i < |p| ==> p[i] == us[i];
    }
  }

  /** The sum of the qualifying values a run of creations sends to an address. */
  function CreditedAmount(us: seq<NewUtxo>, a: string): nat {
    if us == [] then 0
    else
      var u := us[|us| - 1];
      CreditedAmount(us[..|us| - 1], a) + (if u.address == a && Qualifies(u.amount) then ParseDecimal(u.amount) else 0)
  }

  /** After the creations an address holds what it held plus exactly the qualifying values sent to it. */
  lemma {:induction false} CreditAllAmount(t: Table, us: seq<NewUtxo>, a: string)
    requires a in CreditAll(t, us)
    ensures CreditAll(t, us)[a].amount == EntryOr0(t, a).amount + CreditedAmount(us, a)
  {
    if us != [] {
      var p := us[..|us| - 1];
      var u := us[|us| - 1];
      if a in CreditAll(t, p) {
        CreditAllAmount(t, p, a);
      } else {
        CreditAllKeys(t, p, a);
        CreditedAmountAbsent(t, p, a);
      }
    }
  }

  lemma {:induction false} CreditedAmountAbsent(t: Table, us: seq<NewUtxo>, a: string)
    requires a !in CreditAll(t, us)
    ensures a !in t && CreditedAmount(us, a) == 0
  {
    if us != [] {
      CreditedAmountAbsent(t, us[..|us| - 1], a);
    } else {
      assert CreditAll(t, us) == t;
    }
  }

  /** A block keeps both tables well formed and the period table dominated by the all-time table. */
  lemma ApplyDiffConsistent(s: Tables, height: int, news: seq<NewUtxo>, dels: seq<DelUtxo>)
    requires Consistent(s)
    ensures Consistent(ApplyDiff(s, height, news, dels))
  {
    CreditAllWellFormed(s.staked, news);
    CreditAllGrows(s.staked, news);
  }

  /** Every address a block spends from is absent from both tables afterwards, even if the block also credited it. */
  lemma SpentAddressesAbsent(s: Tables, height: int, news: seq<NewUtxo>, dels: seq<DelUtxo>)
    ensures var r := ApplyDiff(s, height, news, dels);
            forall i :: 0 <= i < |dels| ==> dels[i].address !in r.staked && dels[i].address !in r.current
  {
  }

  /** An address the block does not spend from keeps its entry, and its score never drops. */
  lemma UnspentScoreNonDecreasing(s: Tables, height: int, news: seq<NewUtxo>, dels: seq<DelUtxo>, a: string)
    requires a in s.staked
    requires forall i :: 0 <= i < |dels| ==> dels[i].address != a
    ensures var r := ApplyDiff(s, height, news, dels);
            a in r.staked && r.staked[a].score >= s.staked[a].score && r.staked[a].amount >= s.staked[a].amount
  {
    CreditAllGrows(s.staked, news);
  }

  /** An address neither credited with a qualifying value nor spent from keeps its entry, or its absence. */
  lemma UntouchedAddressUnchanged(s: Tables, height: int, news: seq<NewUtxo>, dels: seq<DelUtxo>, a: string)
    requires forall i :: 0 <= i < |news| ==> !(news[i].address == a && Qualifies(news[i].amount))
    requires forall i :: 0 <= i < |dels| ==> dels[i].address != a
    ensures var r := ApplyDiff(s, height, news, dels);
            (a in r.staked <==> a in s.staked) && (a in s.staked ==> r.staked[a] == s.staked[a])
  {
    CreditAllKeys(s.staked, news, a);
    if a in CreditAll(s.staked, news) {
      CreditAllAmount(s.staked, news, a);
      CreditedNothing(news, a);
      CreditAllScore(s.staked, news, a);
    }
  }

  lemma {:induction false} CreditedNothing(us: seq<NewUtxo>, a: string)
    requires forall i :: 0 <= i < |us| ==> !(us[i].address == a && Qualifies(us[i].amount))
    ensures CreditedAmount(us, a) == 0
  {
    if us != [] {
      CreditedNothing(us[..|us| - 1], a);
    }
  }

  /** With nothing credited to it, an address's score is unchanged by the creations. */
  lemma {:induction false} CreditAllScore(t: Table, us: seq<NewUtxo>, a: string)
    requires a in t
    requires forall i :: 0 <= i < |us| ==> !(us[i].address == a && Qualifies(us[i].amount))
    ensures a in CreditAll(t, us) && CreditAll(t, us)[a] == t[a]
  {
    if us != [] {
      CreditAllScore(t, us[..|us| - 1], a);
    }
  }

  /** Away from a payout height the period table only loses addresses: it never gains a key or value. */
  lemma NonBoundaryNoGrowth(s: Tables, height: int, news: seq<NewUtxo>, dels: seq<DelUtxo>)
    requires !IsPayoutHeight(height)
    ensures var r := ApplyDiff(s, height, news, dels);
            r.history == s.history &&
            forall k :: k in r.current ==> k in s.current && r.current[k] == s.current[k]
  {
  }

  /** At a payout height the snapshot records the scores of the period table as left by the spends,
      and the period table becomes an exact copy of the all-time table. */
  lemma BoundaryRebase(s: Tables, height: int, news: seq<NewUtxo>, dels: seq<DelUtxo>)
    requires IsPayoutHeight(height)
    ensures var r := ApplyDiff(s, height, news, dels);
            var period := s.current - SpentAddresses(dels);
            r.current == r.staked &&
            height in r.history &&
            r.history[height].Keys == period.Keys &&
            (forall k :: k in period ==> ParseDecimal(r.history[height][k]) == period[k].score) &&
            forall h :: h in s.history && h != height ==> h in r.history && r.history[h] == s.history[h]
  {
  }

  /** The payout heights are 380000, 390000, ...: exactly STAKE_START plus a positive multiple of PAYOUT_INTERVAL. */
  lemma PayoutHeights(h: int)
    ensures IsPayoutHeight(h) <==>
            h - STAKE_START >= PAYOUT_INTERVAL &&
            h == STAKE_START + ((h - STAKE_START) / PAYOUT_INTERVAL) * PAYOUT_INTERVAL
  {
  }

  /** The three scenarios of the stake-size rule: "150000" and "-100000" change nothing, "0" opens an empty entry. */
  lemma QualificationExamples(t: Table, u: NewUtxo)
    ensures u.amount == "150000" ==> Credit(t, u) == t
    ensures u.amount == "-100000" ==> Credit(t, u) == t
    ensures u.amount == "0" && u.address !in t ==> Credit(t, u) == t[u.address := Entry(0, 0)]
    ensures u.amount == "100000" && u.address !in t ==> u.address in Credit(t, u) && Credit(t, u)[u.address] == Entry(100000, 1)
  {
    if u.amount == "150000" {
      TwoDigits("15");
      AppendFourZeros("15");
      assert u.amount == "15" + "0000";
    } else if u.amount == "-100000" {
      assert !IsDigit(u.amount[0]);
    } else if u.amount == "0" {
      assert ParseDecimal("0") == 0;
    } else if u.amount == "100000" {
      TwoDigits("10");
      AppendFourZeros("10");
      assert u.amount == "10" + "0000";
    }
  }

  /** In the text toString produces, the deposit test reads off the digits: a value
      qualifies iff it is "0" or it has at least six digits and ends in five zeros. */
  lemma QualifiesText(a: string)
    requires IsCanonical(a)
    ensures Qualifies(a) <==> a == "0" || (|a| >= 6 && a[|a| - 5..] == "00000")
  {
    if |a| >= 6 {
      QualifiesLong(a);
    } else {
      QualifiesShort(a);
    }
  }

  /** With six digits or more, the value's remainder by the stake size is the value of the last five digits. */
  lemma QualifiesLong(a: string)
    requires IsCanonical(a) && |a| >= 6
    ensures Qualifies(a) <==> a[|a| - 5..] == "00000"
  {
    var p, q := a[..|a| - 5], a[|a| - 5..];
    assert a == p + q;
    ParseSplit(p, q);
    ParseDecimalBounds(q);
    assert Pow10(5) == STAKE_SIZE;
    RemainderOfShift(ParseDecimal(p), ParseDecimal(q));
    FiveDigitsZero(q);
  }

  lemma FiveDigitsZero(q: string)
    requires |q| == 5 && AllDigits(q)
    ensures ParseDecimal(q) == 0 <==> q == "00000"
  {
    if q == "00000" {
      ParseDecimalBounds(q);
    } else {
      var i :| 0 <= i < 5 && q[i] != "00000"[i];
      ParsePositive(q, i);
    }
  }

  /** With five digits or fewer, only "0" is a whole number of stakes. */
  lemma QualifiesShort(a: string)
    requires IsCanonical(a) && |a| < 6
    ensures Qualifies(a) <==> a == "0"
  {
    if a != "0" {
      assert a[0] != '0';
      ParseCanonicalPositive(a);
      ParseDecimalBounds(a);
      Pow10Monotone(|a|, 5);
      assert Pow10(5) == STAKE_SIZE;
    }
  }

  lemma RemainderOfShift(x: nat, r: nat)
    requires r < STAKE_SIZE
    ensures (x * STAKE_SIZE + r) % STAKE_SIZE == r
  {
  }

  /** Four trailing zeros multiply the value of a digit string by 10000. */
  lemma AppendFourZeros(p: string)
    requires AllDigits(p)
    ensures AllDigits(p + "0000") && ParseDecimal(p + "0000") == ParseDecimal(p) * 10000
  {
    var s1 := p + ['0'];
    ParseAppendDigit(p, '0');
    var s2 := s1 + ['0'];
    ParseAppendDigit(s1, '0');
    var s3 := s2 + ['0'];
    ParseAppendDigit(s2, '0');
    var s4 := s3 + ['0'];
    ParseAppendDigit(s3, '0');
    assert s4 == p + "0000";
  }

  /** The value of a two-digit string. */
  lemma TwoDigits(p: string)
    requires |p| == 2 && AllDigits(p)
    ensures ParseDecimal(p) == DigitValue(p[0]) * 10 + DigitValue(p[1])
  {
    var p1 := p[..1];
    assert p[..|p| - 1] == p1;
    assert p1[..|p1| - 1] == [];
    assert ParseDecimal(p1) == DigitValue(p[0]);
  }

  /** Each published cache value reads back as the amount and score of an address with that key;
      when no two addresses share a key, every address's own entry is published under its key. */
  lemma CacheReadsBack(c: map<string, EntryText>, t: Table)
    requires IsCacheOf(c, t)
    ensures c.Keys == set k | k in t :: CacheKey(k)
    ensures forall ck :: ck in c ==> exists k :: (k in t && CacheKey(k) == ck &&
              ParseDecimal(c[ck].amount) == t[k].amount && ParseDecimal(c[ck].score) == t[k].score)
    ensures CacheKeyInjective(t) ==> forall k :: k in t ==> c[CacheKey(k)] == Render(t[k])
  {
    forall ck | ck in c
      ensures exists k :: (k in t && CacheKey(k) == ck &&
              ParseDecimal(c[ck].amount) == t[k].amount && ParseDecimal(c[ck].score) == t[k].score)
    {
      var k :| k in t && CacheKey(k) == ck && c[ck] == Render(t[k]);
      ParseFormat(t[k].amount);
      ParseFormat(t[k].score);
    }
  }

  /** The /stats total is the stake size times the total score, and the period total never exceeds the all-time total. */
  lemma {:induction false} TotalAmountBounds(c: Table, s: Table)
    requires WellFormed(c) && WellFormed(s) && Dominated(c, s)
    ensures SumValues(Amounts(c)) == STAKE_SIZE * SumValues(Scores(c))
    ensures SumValues(Amounts(c)) <= SumValues(Amounts(s))
  {
    AmountIsScoreTimesStake(c);
    DominatedSum(c, s);
  }

  lemma {:induction false} AmountIsScoreTimesStake(t: Table)
    requires WellFormed(t)
    ensures SumValues(Amounts(t)) == STAKE_SIZE * SumValues(Scores(t))
    decreases |t|
  {
    if t != map[] {
      var k := Pick(t.Keys);
      var t' := t - {k};
      assert |t'.Keys| == |t.Keys| - 1 by { assert t'.Keys == t.Keys - {k}; }
      AmountIsScoreTimesStake(t');
      SumValuesRemove(Amounts(t), k);
      SumValuesRemove(Scores(t), k);
      ViewsRemove(t, k);
    } else {
      assert Amounts(t) == map[] && Scores(t) == map[];
    }
  }

  lemma {:induction false} DominatedSum(c: Table, s: Table)
    requires Dominated(c, s)
    ensures SumValues(Amounts(c)) <= SumValues(Amounts(s))
    decreases |s|
  {
    if s == map[] {
      assert c == map[];
      assert Amounts(c) == map[];
    } else {
      var k := Pick(s.Keys);
      var s' := s - {k};
      var c' := c - {k};
      assert |s'.Keys| == |s.Keys| - 1 by { assert s'.Keys == s.Keys - {k}; }
      DominatedSum(c', s');
      SumValuesRemove(Amounts(s), k);
      ViewsRemove(s, k);
      if k in c {
        SumValuesRemove(Amounts(c), k);
        ViewsRemove(c, k);
      } else {
        assert c' == c;
      }
    }
  }

  /** The amount and score views commute with removing an address. */
  lemma ViewsRemove(t: Table, k: string)
    ensures Amounts(t) - {k} == Amounts(t - {k})
    ensures Scores(t) - {k} == Scores(t - {k})
  {
  }
}
