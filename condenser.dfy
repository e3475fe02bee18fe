/**
 * `reformat_list`: condensing a 55-entry value list of a T_ORDER row.
 * Sixteen address and contact entries are folded into four composite
 * entries appended at the end, so that a change to any part of a
 * delivery or ship-to address is reported once.
 */
module Condenser {
  import PyText

  /** Parts joined by ", ", as the composite builders concatenate them. */
  function Join(parts: seq<string>): string
  {
    if |parts| == 0 then []
    else if |parts| == 1 then parts[0]
    else parts[0] + ", " + Join(parts[1..])
  }

  /** A composite entry: its own label, ": ", then the joined parts. */
  function Composite(name: string, parts: seq<string>): string
  {
    name + ": " + Join(parts)
  }

  /** `reformat_deliv_loc_data`: delivery address lines 1-3, city, state and zip. */
  function DelivLocData(d: seq<string>): string
    requires |d| > 16
  {
    Composite("DELIVERY_LOCATION_INFO", [d[7], d[8], d[9], d[10], d[15], d[16]])
  }

  /** `reformat_ship_loc_data`: ship-to address lines 1-3, city, state and zip. */
  function ShipLocData(d: seq<string>): string
    requires |d| > 45
  {
    Composite("SHIP_TO_LOCATION_INFO", [d[37], d[38], d[39], d[40], d[44], d[45]])
  }

  /** `reformat_deliv_contact_data`: delivery name and phone. */
  function DelivContactData(d: seq<string>): string
    requires |d| > 14
  {
    Composite("DELIVERY_CONTACT_INFO", [d[13], d[14]])
  }

  /** `reformat_ship_contact_data`: ship-to name and phone, under the label as the source spells it. */
  function ShipContactData(d: seq<string>): string
    requires |d| > 43
  {
    Composite("SIHP_TO_CONTACT_INFO", [d[42], d[43]])
  }

  /**
   * A composite entry reads like any other "LABEL: value" entry: its first
   * ':' ends its label, and the text two characters later is the joined parts.
   */
  lemma CompositeField(name: string, parts: seq<string>)
    requires ':' !in name
    ensures var c := Composite(name, parts);
            && |c| >= |name| + 2 && c[|name|] == ':' && c[..|name|] == name
            && c[|name| + 2..] == Join(parts)
  {
    var c := Composite(name, parts);
    assert c == name + (": " + Join(parts));
  }

  /** The first part of a join of several ends at the first ',', and ", " later the rest of the join starts. */
  lemma JoinHead(p: seq<string>)
    requires |p| >= 2 && ',' !in p[0]
    ensures PyText.Find(Join(p), ',') == |p[0]|
    ensures Join(p)[..|p[0]|] == p[0] && Join(p)[|p[0]| + 2..] == Join(p[1..])
  {
    var rest := ", " + Join(p[1..]);
    assert Join(p) == p[0] + rest;
    PyText.FindConcat(p[0], rest, ',');
  }

  /**
   * Joining loses nothing when no part holds a ',': equal joins of equally
   * many parts come from equal parts.
   */
  lemma {:induction false} JoinInjective(p: seq<string>, q: seq<string>)
    requires |p| == |q| && Join(p) == Join(q)
    requires forall i :: 0 <= i < |p| ==> ',' !in p[i] && ',' !in q[i]
    ensures p == q
  {
    if |p| >= 2 {
      JoinHead(p);
      JoinHead(q);
      assert p[0] == q[0];
      assert Join(p[1..]) == Join(q[1..]);
      forall i | 0 <= i < |p| - 1
        ensures ',' !in p[1..][i] && ',' !in q[1..][i]
      {
        assert p[1..][i] == p[i + 1] && q[1..][i] == q[i + 1];
      }
      JoinInjective(p[1..], q[1..]);
      assert p == [p[0]] + p[1..];
      assert q == [q[0]] + q[1..];
    }
  }

  /**
   * A change to any one of the six delivery address entries shows as a
   * change of the delivery location composite, as long as the entries hold
   * no ','.
   */
  lemma DelivLocDetectsChange(d: seq<string>, e: seq<string>)
    requires |d| > 16 && |e| > 16
    requires forall i :: i in [7, 8, 9, 10, 15, 16] ==> ',' !in d[i] && ',' !in e[i]
    ensures DelivLocData(d) == DelivLocData(e)
        <==> (d[7] == e[7] && d[8] == e[8] && d[9] == e[9] && d[10] == e[10] && d[15] == e[15] && d[16] == e[16])
  {
    var p, q := [d[7], d[8], d[9], d[10], d[15], d[16]], [e[7], e[8], e[9], e[10], e[15], e[16]];
    if DelivLocData(d) == DelivLocData(e) {
      var n := "DELIVERY_LOCATION_INFO";
      CompositeField(n, p);
      CompositeField(n, q);
      JoinInjective(p, q);
    }
  }

  /** The positions `reformat_list` deletes (`index_drop_list`). */
  const IndexDropList: seq<nat> := [7, 8, 9, 10, 15, 16, 37, 38, 39, 40, 44, 45, 13, 14, 42, 43]

  /** `sorted(index_drop_list, reverse=True)`: the order the deletions happen in. */
  const DropOrder: seq<nat> := [45, 44, 43, 42, 40, 39, 38, 37, 16, 15, 14, 13, 10, 9, 8, 7]

  /** The deleted positions as a set. */
  const Dropped: set<int> := {7, 8, 9, 10, 13, 14, 15, 16, 37, 38, 39, 40, 42, 43, 44, 45}

  /**
   * The deletion order is `index_drop_list` sorted from the highest
   * position down: the same positions, as many, strictly decreasing.
   */
  lemma DropOrderSorted()
    ensures |DropOrder| == |IndexDropList|
    ensures forall x :: x in DropOrder <==> x in IndexDropList
    ensures forall i :: 0 < i < |DropOrder| ==> DropOrder[i] < DropOrder[i - 1]
  {
  }

  /** The positions deleted by the first `m` turns of the deletion loop. */
  function Deleted(m: nat): set<int>
    requires m <= |DropOrder|
  {
    set x | x in DropOrder[..m]
  }

  /** One more turn of the deletion loop deletes one more position. */
  lemma DeletedStep(m: nat)
    requires m < |DropOrder|
    ensures Deleted(m + 1) == Deleted(m) + {DropOrder[m]}
  {
    assert DropOrder[..m + 1] == DropOrder[..m] + [DropOrder[m]];
  }

  /** All turns of the deletion loop delete exactly the positions of `index_drop_list`. */
  lemma DeletedAll()
    ensures Deleted(|DropOrder|) == Dropped
  {
    assert DropOrder[..|DropOrder|] == DropOrder;
    forall x
      ensures x in Deleted(|DropOrder|) <==> x in Dropped
    {
      DropOrderIsDropped();
    }
  }

  /** `Dropped` holds the positions of the deletion order. */
  lemma DropOrderIsDropped()
    ensures forall x :: x in DropOrder <==> x in Dropped
  {
  }

  /** The stretches of kept and of dropped positions. */
  lemma DroppedStretches()
    ensures forall x :: 0 <= x < 7 || 11 <= x < 13 || 17 <= x < 37 || 41 <= x < 42 || 46 <= x ==> x !in Dropped
    ensures forall x :: 7 <= x < 11 || 13 <= x < 17 || 37 <= x < 41 || 42 <= x < 46 ==> x in Dropped
  {
  }

  /** The entries of `s` from position `lo` on whose positions are not in `gone`, in order. */
  function Keep(s: seq<string>, gone: set<int>, lo: nat): (r: seq<string>)
    decreases |s| - lo
  {
    if lo >= |s| then []
    else if lo in gone then Keep(s, gone, lo + 1)
    else [s[lo]] + Keep(s, gone, lo + 1)
  }

  /** A stretch of positions none of which is dropped is kept as it is. */
  lemma {:induction false} KeepRun(s: seq<string>, gone: set<int>, lo: nat, hi: nat)
    requires lo <= hi <= |s|
    requires forall x :: lo <= x < hi ==> x !in gone
    ensures Keep(s, gone, lo) == s[lo..hi] + Keep(s, gone, hi)
    decreases hi - lo
  {
    if lo < hi {
      assert lo !in gone;
      KeepRun(s, gone, lo + 1, hi);
      calc {
        Keep(s, gone, lo);
        [s[lo]] + Keep(s, gone, lo + 1);
        [s[lo]] + (s[lo + 1..hi] + Keep(s, gone, hi));
        ([s[lo]] + s[lo + 1..hi]) + Keep(s, gone, hi);
        { assert [s[lo]] + s[lo + 1..hi] == s[lo..hi]; }
        s[lo..hi] + Keep(s, gone, hi);
      }
    }
  }

  /** A stretch of positions all of which are dropped contributes nothing. */
  lemma {:induction false} KeepSkip(s: seq<string>, gone: set<int>, lo: nat, hi: nat)
    requires lo <= hi <= |s|
    requires forall x :: lo <= x < hi ==> x in gone
    ensures Keep(s, gone, lo) == Keep(s, gone, hi)
    decreases hi - lo
  {
    if lo < hi {
      KeepSkip(s, gone, lo + 1, hi);
    }
  }

  /** Dropping a position below `lo` does not change what is kept from `lo` on. */
  lemma {:induction false} KeepBelow(s: seq<string>, gone: set<int>, j: int, lo: nat)
    requires j < lo
    ensures Keep(s, gone + {j}, lo) == Keep(s, gone, lo)
    decreases |s| - lo
  {
    if lo < |s| {
      KeepBelow(s, gone, j, lo + 1);
    }
  }

  /** The kept entries from position 41 on: 41, then 46 to the end. */
  lemma KeptFrom41(d: seq<string>)
    requires |d| > 45
    ensures Keep(d, Dropped, 41) == d[41..42] + d[46..]
  {
    DroppedStretches();
    KeepRun(d, Dropped, 46, |d|);
    KeepSkip(d, Dropped, 42, 46);
    KeepRun(d, Dropped, 41, 42);
  }

  /** The kept entries from position 17 on: 17-36, then from 41. */
  lemma KeptFrom17(d: seq<string>)
    requires |d| > 45
    ensures Keep(d, Dropped, 17) == d[17..37] + Keep(d, Dropped, 41)
  {
    DroppedStretches();
    KeepSkip(d, Dropped, 37, 41);
    KeepRun(d, Dropped, 17, 37);
  }

  /** The kept entries from position 11 on: 11-12, then from 17. */
  lemma KeptFrom11(d: seq<string>)
    requires |d| > 45
    ensures Keep(d, Dropped, 11) == d[11..13] + Keep(d, Dropped, 17)
  {
    DroppedStretches();
    KeepSkip(d, Dropped, 13, 17);
    KeepRun(d, Dropped, 11, 13);
  }

  /** The kept entries from the start: 0-6, then from 11. */
  lemma KeptFrom0(d: seq<string>)
    requires |d| > 45
    ensures Keep(d, Dropped, 0) == d[..7] + Keep(d, Dropped, 7)
    ensures Keep(d, Dropped, 7) == Keep(d, Dropped, 11)
  {
    DroppedStretches();
    KeepSkip(d, Dropped, 7, 11);
    KeepRun(d, Dropped, 0, 7);
    assert d[0..7] == d[..7];
  }

  /**
   * Which original positions the kept entries come from: 0-6, then 11-12,
   * 17-36, 41, and 46 to the end.
   */
  lemma KeptLayout(d: seq<string>)
    requires |d| > 45
    ensures Keep(d, Dropped, 0) == d[..7] + (d[11..13] + (d[17..37] + (d[41..42] + d[46..])))
  {
    KeptFrom41(d);
    KeptFrom17(d);
    KeptFrom11(d);
    KeptFrom0(d);
  }

  /**
   * The result of `reformat_list`: the entries at the kept positions, in
   * order, then the delivery location, delivery contact, ship-to location
   * and ship-to contact composites. Sixteen entries go and four come, so a
   * 55-entry list becomes 43 entries, too short to be condensed again.
   */
  function Condensed(d: seq<string>): (r: seq<string>)
    requires |d| > 45
    ensures |r| == |d| - 12
    ensures |d| == 55 ==> |r| == 43 < 46
  {
    KeptLayout(d);
    Keep(d, Dropped, 0) + [DelivLocData(d), DelivContactData(d), ShipLocData(d), ShipContactData(d)]
  }

  /** Where each condensed entry comes from. */
  lemma CondensedAt(d: seq<string>, i: nat)
    requires |d| > 45 && i < |d| - 12
    ensures Condensed(d)[i]
         == if i < 7 then d[i]
            else if i < 9 then d[i + 4]
            else if i < 29 then d[i + 8]
            else if i < 30 then d[41]
            else if i < |d| - 16 then d[i + 16]
            else if i == |d| - 16 then DelivLocData(d)
            else if i == |d| - 15 then DelivContactData(d)
            else if i == |d| - 14 then ShipLocData(d)
            else ShipContactData(d)
  {
    KeptLayout(d);
  }

  /** Condensing keeps every entry labelled: each kept entry was one, and each composite starts with its name and ": ". */
  lemma CondensedKeepsLabels(d: seq<string>)
    requires |d| > 45
    requires forall k :: 0 <= k < |d| ==> ':' in d[k]
    ensures forall i :: 0 <= i < |Condensed(d)| ==> ':' in Condensed(d)[i]
  {
    forall i | 0 <= i < |Condensed(d)|
      ensures ':' in Condensed(d)[i]
    {
      CondensedAt(d, i);
      if i >= |d| - 16 {
        var c := Condensed(d)[i];
        var name := if i == |d| - 16 then "DELIVERY_LOCATION_INFO"
                    else if i == |d| - 15 then "DELIVERY_CONTACT_INFO"
                    else if i == |d| - 14 then "SHIP_TO_LOCATION_INFO"
                    else "SIHP_TO_CONTACT_INFO";
        assert c[|name|] == ':';
      }
    }
  }

  /** Where the deletion loop of `ReformatList` has got to after `m` turns. */
  function Bound(d: seq<string>, m: nat): int
    requires 0 < m <= |DropOrder| || m == 0
  {
    if m == 0 then |d| else DropOrder[m - 1]
  }

  /** No position in `gone` lies below `b`. */
  predicate Above(gone: set<int>, b: int)
  {
    forall x :: x in gone ==> x >= b
  }

  /** The next position to delete lies below where the loop has got to, and becomes the new bound. */
  lemma BoundStep(d: seq<string>, m: nat)
    requires |d| > 45 && m < |DropOrder|
    ensures DropOrder[m] < Bound(d, m) <= |d| && Bound(d, m + 1) == DropOrder[m]
  {
    DropOrderSorted();
  }

  /** The positions deleted so far all lie at or above the bound, before and after one more turn. */
  lemma DeletedAbove(d: seq<string>, m: nat)
    requires |d| > 45 && m < |DropOrder|
    requires Above(Deleted(m), Bound(d, m))
    ensures Above(Deleted(m + 1), Bound(d, m + 1))
  {
    BoundStep(d, m);
    DeletedStep(m);
  }

  /** One deletion of the loop in `ReformatList`. */
  lemma DeleteStep(d: seq<string>, gone: set<int>, index: nat, b: nat)
    requires index < b <= |d|
    requires Above(gone, b)
    ensures var list := d[..b] + Keep(d, gone, b);
            list[..index] + list[index + 1..] == d[..index] + Keep(d, gone + {index}, index)
  {
    var list := d[..b] + Keep(d, gone, b);
    KeepBelow(d, gone, index, b);
    KeepRun(d, gone + {index}, index + 1, b);
    assert list[..index] == d[..index];
    assert list[index + 1..] == d[index + 1..b] + Keep(d, gone, b);
  }

  /**
   * `reformat_list`: build the four composites, delete the sixteen
   * positions, then append the composites.
   */
  method ReformatList(d: seq<string>) returns (list: seq<string>)
    requires |d| > 45
    ensures list == Condensed(d)
  {
    var delivLoc := DelivLocData(d);
    var shipLoc := ShipLocData(d);
    var delivCont := DelivContactData(d);
    var shipCont := ShipContactData(d);
    list := DeleteDropped(d);
    list := list + [delivLoc];
    list := list + [delivCont];
    list := list + [shipLoc];
    list := list + [shipCont];
  }

  /**
   * The deletion loop of `reformat_list`: `del data_list[index]` for each
   * position, from the highest down, so that no deletion shifts a position
   * still to be deleted.
   */
  method DeleteDropped(d: seq<string>) returns (list: seq<string>)
    requires |d| > 45
    ensures list == Keep(d, Dropped, 0)
  {
    list := d;
    var m := 0;
    assert d[..|d|] == d;
    while m < |DropOrder|
      invariant 0 <= m <= |DropOrder|
      invariant Above(Deleted(m), Bound(d, m))
      invariant list == d[..Bound(d, m)] + Keep(d, Deleted(m), Bound(d, m))
    {
      var index := DropOrder[m];
      BoundStep(d, m);
      DeleteStep(d, Deleted(m), index, Bound(d, m));
      DeletedAbove(d, m);
      DeletedStep(m);
      list := list[..index] + list[index + 1..];
      m := m + 1;
    }
    DeletedAll();
    KeptFrom0(d);
  }
}
