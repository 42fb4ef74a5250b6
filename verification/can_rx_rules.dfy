/** The receive rule table: one flat table of pages, cut into one slice of rules per channel. */
module CanRxRules {
  import opened CanTypes

  const RULES: nat := PAGES * PAGE_RULES

  /** Masks and FIFO selections are sets of bit positions. */
  datatype Rule = Rule(ide: bool, rtr: bool, canid: Id, maskIde: bool, maskRtr: bool, maskId: set<nat>,
                       dlc: nat, tag: nat, toBuffer: bool, buffer: nat, rxFifo: set<nat>, txrxFifo: set<nat>)

  datatype Place = Place(page: nat, index: nat)

  function PlaceOf(rid: nat): Place {
    Place(rid / PAGE_RULES, rid % PAGE_RULES)
  }

  predicate InTable(p: Place) {
    p.page < PAGES && p.index < PAGE_RULES
  }

  /** Position in the flat table at which a channel's rules start. */
  function Offset(nums: seq<nat>, c: nat): (n: nat)
    requires c <= |nums|
  {
    if c == 0 then 0 else Offset(nums, c - 1) + nums[c - 1]
  }

  lemma {:induction false} OffsetMonotone(nums: seq<nat>, c: nat, d: nat)
    requires c < d <= |nums|
    ensures Offset(nums, c) + nums[c] <= Offset(nums, d)
    decreases d
  {
    if c + 1 < d {
      OffsetMonotone(nums, c, d - 1);
    }
  }

  lemma PlacesDiffer(a: nat, b: nat)
    requires a != b
    ensures PlaceOf(a) != PlaceOf(b)
  {
    assert a == a / PAGE_RULES * PAGE_RULES + a % PAGE_RULES;
    assert b == b / PAGE_RULES * PAGE_RULES + b % PAGE_RULES;
  }

  /** Where rule k of channel c lies. */
  function RulePlace(nums: seq<nat>, c: nat, k: nat): Place
    requires c < |nums|
  {
    PlaceOf(Offset(nums, c) + k)
  }

  /** Every rule of every channel lies in the table when their total fits. */
  lemma RuleInTable(nums: seq<nat>, c: nat, k: nat)
    requires c < |nums| && k < nums[c] && Offset(nums, |nums|) <= RULES
    ensures InTable(RulePlace(nums, c, k))
  {
    OffsetMonotone(nums, c, |nums|);
    assert Offset(nums, c) + k < RULES;
  }

  /** No two channels share an entry, nor do two rules of one channel. */
  lemma SlicesDisjoint(nums: seq<nat>, c: nat, k: nat, d: nat, j: nat)
    requires c < |nums| && k < nums[c] && d < |nums| && j < nums[d]
    requires (c, k) != (d, j)
    ensures RulePlace(nums, c, k) != RulePlace(nums, d, j)
  {
    if c < d {
      OffsetMonotone(nums, c, d);
    } else if d < c {
      OffsetMonotone(nums, d, c);
    }
    PlacesDiffer(Offset(nums, c) + k, Offset(nums, d) + j);
  }

  /** The slices leave no gaps: every entry below the total belongs to some channel. */
  lemma {:induction false} SlicesCover(nums: seq<nat>, n: nat, rid: nat) returns (c: nat, k: nat)
    requires n <= |nums| && rid < Offset(nums, n)
    ensures c < n && k < nums[c] && RulePlace(nums, c, k) == PlaceOf(rid)
    decreases n
  {
    if rid < Offset(nums, n - 1) {
      c, k := SlicesCover(nums, n - 1, rid);
    } else {
      c, k := n - 1, rid - Offset(nums, n - 1);
    }
  }

  class RuleTable {
    const pages: array2<Rule>
    const numbers: array<nat>     // rules per channel, as set by software
    const ruleNum: array<nat>     // rules per channel, as used
    const rule: array2<Place>     // each channel's list of entries

    ghost predicate Shape() {
      && pages.Length0 == PAGES && pages.Length1 == PAGE_RULES
      && numbers.Length == CHANNELS && ruleNum.Length == CHANNELS && numbers != ruleNum
      && rule.Length0 == CHANNELS && rule.Length1 == RULES
    }

    /** The first n entries of channel c's list are in place. */
    ghost predicate Filled(nums: seq<nat>, c: nat, n: nat)
      reads rule
      requires Shape() && c < CHANNELS && |nums| == CHANNELS && n <= RULES
    {
      forall k :: 0 <= k < n ==> rule[c, k] == RulePlace(nums, c, k)
    }

    /** The lists are the slices that the rule numbers ask for. */
    ghost predicate Current()
      reads numbers, ruleNum, rule
    {
      && Shape() && Offset(numbers[..], CHANNELS) <= RULES
      && ruleNum[..] == numbers[..]
      && forall c :: 0 <= c < CHANNELS ==> ruleNum[c] <= RULES && Filled(numbers[..], c, ruleNum[c])
    }

    constructor (pages: array2<Rule>, numbers: array<nat>)
      requires pages.Length0 == PAGES && pages.Length1 == PAGE_RULES && numbers.Length == CHANNELS
      ensures Shape() && fresh(ruleNum) && fresh(rule) && this.pages == pages && this.numbers == numbers
    {
      this.pages, this.numbers := pages, numbers;
      ruleNum := new nat[CHANNELS](_ => 0);
      rule := new Place[CHANNELS, RULES]((_, _) => Place(0, 0));
    }

    method Update()
      requires Shape() && Offset(numbers[..], CHANNELS) <= RULES
      modifies ruleNum, rule
      ensures Current()
    {
      ghost var nums := numbers[..];
      var rid, c := 0, 0;
      while c < CHANNELS
        invariant 0 <= c <= CHANNELS && rid == Offset(nums, c)
        invariant forall d :: 0 <= d < c ==> ruleNum[d] == nums[d] <= RULES && Filled(nums, d, nums[d])
      {
        OffsetMonotone(nums, c, CHANNELS);
        ruleNum[c] := numbers[c];
        var count := 0;
        while count < ruleNum[c]
          invariant 0 <= count <= nums[c] && rid == Offset(nums, c) + count
          invariant ruleNum[c] == nums[c] && Filled(nums, c, count)
          invariant forall d :: 0 <= d < c ==> ruleNum[d] == nums[d] <= RULES && Filled(nums, d, nums[d])
        {
          rule[c, count] := Place(rid / PAGE_RULES, rid % PAGE_RULES);
          rid := rid + 1;
          count := count + 1;
        }
        c := c + 1;
      }
    }
  }
}
