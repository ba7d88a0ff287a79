/** The bitmap of the priorities with a ready thread (rt-thread/src/scheduler.c), in both layouts: one word for up
    to 32 priorities, or a word of groups and a table of eight priorities each. */
module Bitmap {
  import opened Words

  /** number, number_mask and high_mask of a thread. */
  datatype Marks = Marks(number: nat, numberMask: bv32, highMask: bv32)

  function MarksOf(prio: nat, wide: bool): (m: Marks)
    requires prio < if wide then 256 else 32
    ensures m != NO_MARKS
  {
    MaskSet(if wide then prio / 8 else prio);
    if wide then Marks(prio / 8, Mask(prio / 8), Mask(prio % 8)) else Marks(0, Mask(prio), 0)
  }

  /** The marks of a thread that was never started. */
  const NO_MARKS := Marks(0, 0, 0)

  lemma MaskSet(i: nat)
    requires i < 32
    ensures Mask(i) != 0
  {
    BitsOfMask(i);
    BitsOfZero(Mask(i));
    assert i in BitsOf(Mask(i));
  }

  /** The entries of the table as sets. */
  ghost function Sets(table: seq<bv32>): (r: seq<set<nat>>)
    ensures |r| == |table| && forall n :: 0 <= n < |r| ==> r[n] == BitsOf(table[n])
  {
    seq(|table|, n requires 0 <= n < |table| => BitsOf(table[n]))
  }

  /** Two levels: bit `b` of table entry `n` stands for priority `8 * n + b`, bit `n` of the group for the entry. */
  ghost predicate TwoLevels(ready: set<nat>, group: set<nat>, table: seq<set<nat>>) {
    && |table| == 32 && (forall p :: p in ready ==> p < 256)
    && (forall n: nat :: n in group <==> n < 32 && table[n] != {})
    && (forall n: nat, b: nat :: n < 32 ==> (b in table[n] <==> b < 8 && 8 * n + b in ready))
  }

  /** The bitmap says which priorities are `ready`. */
  ghost predicate Fits(ready: set<nat>, wide: bool, group: bv32, table: seq<bv32>) {
    if wide then TwoLevels(ready, BitsOf(group), Sets(table)) else |table| == 32 && BitsOf(group) == ready
  }

  lemma SplitIndex(m: nat, c: nat, p: nat)
    requires c < 8
    ensures 8 * m + c == p <==> m == p / 8 && c == p % 8
  {
  }

  /** Both levels when priority `p` becomes ready. */
  lemma TwoLevelsSet(ready: set<nat>, group: set<nat>, table: seq<set<nat>>, p: nat)
    requires TwoLevels(ready, group, table) && p < 256
    ensures TwoLevels(ready + {p}, group + {p / 8}, table[p / 8 := table[p / 8] + {p % 8}])
  {
    var n, b := p / 8, p % 8;
    var table' := table[n := table[n] + {b}];
    forall m: nat, c: nat | m < 32 ensures c in table'[m] <==> c < 8 && 8 * m + c in ready + {p} {
      if c < 8 { SplitIndex(m, c, p); }
    }
    assert b in table'[n];
  }

  /** Both levels when priority `p` has no ready thread any more: the group bit goes with the last bit of its entry. */
  lemma TwoLevelsClear(ready: set<nat>, group: set<nat>, table: seq<set<nat>>, p: nat)
    requires TwoLevels(ready, group, table) && p < 256
    ensures var entry := table[p / 8] - {p % 8};
      TwoLevels(ready - {p}, if entry == {} then group - {p / 8} else group, table[p / 8 := entry])
  {
    var n, b := p / 8, p % 8;
    var table' := table[n := table[n] - {b}];
    forall m: nat, c: nat | m < 32 ensures c in table'[m] <==> c < 8 && 8 * m + c in ready - {p} {
      if c < 8 { SplitIndex(m, c, p); }
    }
    assert table'[n] != {} ==> table[n] != {};
  }

  // ---------- the words ----------

  lemma SetWord(ready: set<nat>, group: bv32, table: seq<bv32>, p: nat, mask: bv32, group': bv32)
    requires Fits(ready, false, group, table) && p < 32 && mask == Mask(p) && IsOr(group', group, mask)
    ensures Fits(ready + {p}, false, group', table)
  {
    OrBits(group', group, mask);
    BitsOfMask(p);
  }

  lemma ClearWord(ready: set<nat>, group: bv32, table: seq<bv32>, p: nat, mask: bv32, group': bv32)
    requires Fits(ready, false, group, table) && p < 32 && mask == Mask(p) && IsMinus(group', group, mask)
    ensures Fits(ready - {p}, false, group', table)
  {
    MinusBits(group', group, mask);
    BitsOfMask(p);
  }

  lemma OneEntry(table: seq<bv32>, n: nat, entry: bv32)
    requires n < |table|
    ensures Sets(table[n := entry]) == Sets(table)[n := BitsOf(entry)]
  {
  }

  lemma SetWide(ready: set<nat>, group: bv32, table: seq<bv32>, p: nat, m: Marks, group': bv32, entry': bv32)
    requires Fits(ready, true, group, table) && p < 256 && m == MarksOf(p, true)
    requires IsOr(group', group, m.numberMask) && IsOr(entry', table[p / 8], m.highMask)
    ensures m.number == p / 8 < |table| && Fits(ready + {p}, true, group', table[p / 8 := entry'])
  {
    OrBits(group', group, m.numberMask);
    BitsOfMask(p / 8);
    OrBits(entry', table[p / 8], m.highMask);
    BitsOfMask(p % 8);
    OneEntry(table, p / 8, entry');
    TwoLevelsSet(ready, BitsOf(group), Sets(table), p);
  }

  lemma ClearWide(ready: set<nat>, group: bv32, table: seq<bv32>, p: nat, m: Marks, group': bv32, entry': bv32)
    requires Fits(ready, true, group, table) && p < 256 && m == MarksOf(p, true)
    requires IsMinus(entry', table[p / 8], m.highMask)
    requires if entry' == 0 then IsMinus(group', group, m.numberMask) else group' == group
    ensures m.number == p / 8 < |table| && Fits(ready - {p}, true, group', table[p / 8 := entry'])
  {
    MinusBits(entry', table[p / 8], m.highMask);
    BitsOfMask(p % 8);
    BitsOfMask(p / 8);
    BitsOfZero(entry');
    if entry' == 0 { MinusBits(group', group, m.numberMask); }
    OneEntry(table, p / 8, entry');
    TwoLevelsClear(ready, BitsOf(group), Sets(table), p);
  }

  lemma EmptyFits(wide: bool, table: seq<bv32>)
    requires |table| == 32 && forall i :: 0 <= i < 32 ==> table[i] == 0
    ensures Fits({}, wide, 0, table)
  {
    BitsOfZero(0);
  }

  /** Masks of 0 change nothing. */
  lemma NoMarks(w: bv32)
    ensures w & !NO_MARKS.numberMask == w && w & !NO_MARKS.highMask == w
  {
  }

  /** The bits set in rt_schedule_insert_thread. */
  method AddMarks(m: Marks, wide: bool, group: bv32, table: seq<bv32>, ghost p: nat, ghost ready: set<nat>)
    returns (group': bv32, table': seq<bv32>)
    requires Fits(ready, wide, group, table) && (p < if wide then 256 else 32) && m == MarksOf(p, wide)
    ensures Fits(ready + {p}, wide, group', table')
  {
    group', table' := group | m.numberMask, table;
    if wide {
      var entry := table[m.number] | m.highMask;
      SetWide(ready, group, table, p, m, group', entry);
      table' := table[m.number := entry];
    } else {
      SetWord(ready, group, table, p, m.numberMask, group');
    }
  }

  /** The bits cleared in rt_schedule_remove_thread once the ready list is empty; a thread never started has none. */
  method DropMarks(m: Marks, wide: bool, group: bv32, table: seq<bv32>, ghost p: nat, ghost ready: set<nat>)
    returns (group': bv32, table': seq<bv32>)
    requires Fits(ready, wide, group, table) && p < if wide then 256 else 32
    requires m == MarksOf(p, wide) || (m == NO_MARKS && p !in ready)
    ensures Fits(ready - {p}, wide, group', table')
  {
    if wide {
      group', table' := DropWide(m, group, table, p, ready);
    } else {
      group' := DropNarrow(m.numberMask, group, table, p, ready);
      table' := table;
    }
  }

  method DropNarrow(mask: bv32, group: bv32, ghost table: seq<bv32>, ghost p: nat, ghost ready: set<nat>)
    returns (group': bv32)
    requires Fits(ready, false, group, table) && p < 32
    requires mask == Mask(p) || (mask == 0 && p !in ready)
    ensures Fits(ready - {p}, false, group', table)
  {
    group' := group & !mask;
    if mask == 0 {
      MaskSet(p);
      NoMarks(group);
      assert group' == group && ready - {p} == ready;
    } else {
      ClearWord(ready, group, table, p, mask, group');
    }
  }

  method DropWide(m: Marks, group: bv32, table: seq<bv32>, ghost p: nat, ghost ready: set<nat>)
    returns (group': bv32, table': seq<bv32>)
    requires Fits(ready, true, group, table) && p < 256
    requires m == MarksOf(p, true) || (m == NO_MARKS && p !in ready)
    ensures Fits(ready - {p}, true, group', table')
  {
    var entry := table[m.number] & !m.highMask;
    group', table' := group, table[m.number := entry];
    if entry == 0 {
      group' := group & !m.numberMask;
    }
    if m == NO_MARKS {
      NothingDropped(ready, p, group, table);
    } else {
      ClearWide(ready, group, table, p, m, group', entry);
    }
  }

  lemma NothingDropped(ready: set<nat>, p: nat, group: bv32, table: seq<bv32>)
    requires p !in ready && |table| == 32
    ensures ready - {p} == ready && group & !NO_MARKS.numberMask == group
    ensures table[0] & !NO_MARKS.highMask == table[0] && table[0 := table[0]] == table
  {
    NoMarks(group);
    NoMarks(table[0]);
  }

  // ---------- what the bitmap is for ----------

  /** The group word is 0 exactly when no priority is ready. */
  lemma GroupTells(ready: set<nat>, wide: bool, group: bv32, table: seq<bv32>)
    requires Fits(ready, wide, group, table)
    ensures group != 0 <==> ready != {}
  {
    BitsOfZero(group);
    if wide {
      if ready != {} {
        var p :| p in ready;
        assert 8 * (p / 8) + p % 8 == p;
        assert p % 8 in Sets(table)[p / 8];
      }
      if group != 0 {
        var n :| n in BitsOf(group);
        var b :| b in Sets(table)[n];
        assert 8 * n + b in ready;
      }
    }
  }

  /** `p` is the most urgent ready priority. */
  ghost predicate IsMostUrgent(ready: set<nat>, p: nat) {
    p in ready && forall r :: r in ready ==> p <= r
  }

  /** The lowest bit of the lowest entry is the most urgent ready priority. */
  lemma LowestOfLowest(ready: set<nat>, group: set<nat>, table: seq<set<nat>>, number: nat, bit: nat)
    requires TwoLevels(ready, group, table) && number in group && forall i :: i in group ==> number <= i
    requires bit in table[number] && forall i :: i in table[number] ==> bit <= i
    ensures IsMostUrgent(ready, 8 * number + bit)
  {
    forall r | r in ready ensures 8 * number + bit <= r {
      var m, c := r / 8, r % 8;
      SplitIndex(m, c, r);
      assert c in table[m] && m in group;
    }
  }

  /** _get_highest_priority_thread: the search in either layout. */
  method MostUrgent(wide: bool, group: bv32, table: seq<bv32>, ghost ready: set<nat>) returns (p: nat)
    requires Fits(ready, wide, group, table) && ready != {}
    ensures IsMostUrgent(ready, p)
  {
    GroupTells(ready, wide, group, table);
    BitsOfZero(group);
    var number := Ffs(group);
    if !wide {
      return number - 1;
    }
    assert Sets(table)[number - 1] != {};
    var bit := Ffs(table[number - 1]);
    p := 8 * (number - 1) + bit - 1;
    LowestOfLowest(ready, BitsOf(group), Sets(table), number - 1, bit - 1);
  }
}
