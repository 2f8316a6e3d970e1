/**
 * The readers that work on one walked record: the Codec 8E variable-length elements, the Codec 16
 * IO map and its generation type. `None` is the error each of them raises (a RangeError of the
 * unchecked 8E reads, a FrameError of the checked Codec 16 reads).
 */
module Extract {
  import opened Bytes
  import opened Walk
  import opened Options

  // ----- elements in wire order, and the map they are set into -----

  /** `Map.set` of every element in order: a repeated id keeps the last value. */
  function ToMap<T>(items: seq<(nat, T)>): map<nat, T> {
    if items == [] then map[]
    else ToMap(items[..|items| - 1])[items[|items| - 1].0 := items[|items| - 1].1]
  }

  ghost predicate DistinctIds<T>(items: seq<(nat, T)>) {
    forall i, j :: 0 <= i < j < |items| ==> items[i].0 != items[j].0
  }

  lemma {:induction false} ToMapKeys<T>(items: seq<(nat, T)>)
    ensures forall id :: id in ToMap(items) <==> exists i :: 0 <= i < |items| && items[i].0 == id
  {
    if items != [] {
      var front := items[..|items| - 1];
      ToMapKeys(front);
      forall id ensures id in ToMap(items) <==> exists i :: 0 <= i < |items| && items[i].0 == id {
        if id in ToMap(front) {
          var i :| 0 <= i < |front| && front[i].0 == id;
          assert items[i].0 == id;
        }
        if exists i :: 0 <= i < |items| && items[i].0 == id {
          var i :| 0 <= i < |items| && items[i].0 == id;
          if i < |front| {
            assert front[i].0 == id;
          }
        }
      }
    }
  }

  /** The map is as large as the list exactly when no id repeats. */
  lemma {:induction false} ToMapSize<T>(items: seq<(nat, T)>)
    ensures |ToMap(items)| <= |items|
    ensures |ToMap(items)| == |items| <==> DistinctIds(items)
  {
    if items != [] {
      var n := |items| - 1;
      var front, id := items[..n], items[n].0;
      ToMapSize(front);
      ToMapKeys(front);
      var m := ToMap(front);
      assert ToMap(items).Keys == m.Keys + {id};
      if id in m {
        assert m.Keys + {id} == m.Keys;
        var i :| 0 <= i < n && front[i].0 == id;
        assert items[i].0 == items[n].0;
      } else {
        DistinctIdsStep(items);
      }
    }
  }

  lemma DistinctIdsStep<T>(items: seq<(nat, T)>)
    requires items != []
    requires forall x :: x in items[..|items| - 1] ==> x.0 != items[|items| - 1].0
    ensures DistinctIds(items) <==> DistinctIds(items[..|items| - 1])
  {
    var n := |items| - 1;
    var front := items[..n];
    assert forall i :: 0 <= i < n ==> items[i] == front[i];
    if DistinctIds(front) {
      forall i, j | 0 <= i < j < |items| ensures items[i].0 != items[j].0 {
        assert items[i] == front[i];
        if j < n { assert items[j] == front[j]; }
      }
    }
  }

  /** With distinct ids every element is found under its id. */
  lemma {:induction false} ToMapLookup<T>(items: seq<(nat, T)>, i: nat)
    requires DistinctIds(items) && i < |items|
    ensures items[i].0 in ToMap(items) && ToMap(items)[items[i].0] == items[i].1
  {
    var n := |items| - 1;
    if i < n {
      assert items[..n][i] == items[i];
      ToMapLookup(items[..n], i);
    }
  }

  // ----- Codec 8E: the NX group -----

  datatype Scan<T> = Failed | Items(items: seq<(nat, T)>, rest: seq<byte>)

  /** A scan with the elements already read put back in front. */
  function After<T>(done: seq<(nat, T)>, s: Scan<T>): Scan<T> {
    match s
    case Failed => Failed
    case Items(items, rest) => Items(done + items, rest)
  }

  lemma AfterStep<T>(done: seq<(nat, T)>, x: (nat, T), s: Scan<T>)
    ensures After(done, After([x], s)) == After(done + [x], s)
    ensures After([], s) == s
  {
    if s.Items? {
      assert done + ([x] + s.items) == (done + [x]) + s.items;
      assert [] + s.items == s.items;
    }
  }

  /** `cnt` elements of id, length and payload; a payload cut off by the end is taken as it is. */
  function NxItems(s: seq<byte>, cnt: nat): Scan<seq<byte>> {
    if cnt == 0 then Items([], s)
    else if |s| < 4 then Failed
    else
      var len := U16(s, 2);
      if |s| < 4 + len then
        if cnt == 1 then Items([(U16(s, 0), s[4..])], []) else Failed
      else
        After([(U16(s, 0), s[4..4 + len])], NxItems(s[4 + len..], cnt - 1))
  }

  function NxScan(record: seq<byte>): Scan<seq<byte>> {
    if |record| < HEAD + 4 then Failed
    else
      match SkipGroups(record[HEAD + 4..], SHAPE_8E, VALUE_SIZES)
      case Overrun => Failed
      case At(nx, _) => if |nx| < 2 then Failed else NxItems(nx[2..], U16(nx, 0))
  }

  function Nx8e(record: seq<byte>): Option<map<nat, seq<byte>>> {
    match NxScan(record)
    case Failed => None
    case Items(items, _) => Some(ToMap(items))
  }

  method ExtractNx8e(record: seq<byte>) returns (out: Option<map<nat, seq<byte>>>)
    ensures out == Nx8e(record)
  {
    hide SkipGroups, NxItems, Width;
    if |record| < HEAD + 4 { return None; }
    var off := HEAD + 2 + 2;
    ghost var passed: nat := 0;
    for g := 0 to 4
      invariant off >= HEAD + 4
      invariant SkipGroups(record[HEAD + 4..], SHAPE_8E, VALUE_SIZES) ==
        if off > |record| then Overrun
        else SkipGroups(record[off..], SHAPE_8E, VALUE_SIZES[g..]).Plus(passed)
    {
      if off <= |record| { GroupStep(record, off, SHAPE_8E, VALUE_SIZES[g..]); }
      if off + 2 > |record| { return None; }
      assert VALUE_SIZES[g..][1..] == VALUE_SIZES[g + 1..];
      var cnt := U16(record, off);
      TwoByteGroup(record, off, VALUE_SIZES[g]);
      passed := passed + cnt;
      off := off + 2 + cnt * (2 + VALUE_SIZES[g]);
    }
    if off <= |record| { NoGroups(record[off..], SHAPE_8E); }
    if off + 2 > |record| { return None; }
    assert U16(record[off..], 0) == U16(record, off) && record[off..][2..] == record[off + 2..];
    out := NxLoop(record, off);
  }

  lemma TwoByteGroup(record: seq<byte>, off: nat, size: nat)
    requires off + 2 <= |record|
    ensures Width(record[off..], 2) == U16(record, off)
    ensures GroupLength(record[off..], SHAPE_8E, size) == 2 + U16(record, off) * (2 + size)
  {
  }

  method NxLoop(record: seq<byte>, start: nat) returns (out: Option<map<nat, seq<byte>>>)
    requires start + 2 <= |record|
    ensures out == match NxItems(record[start + 2..], U16(record, start))
                   case Failed => None
                   case Items(items, _) => Some(ToMap(items))
  {
    hide NxItems;
    var off, m := start + 2, map[];
    var cnt := U16(record, start);
    ghost var done: seq<(nat, seq<byte>)> := [];
    ghost var all := NxItems(record[off..], cnt);
    AfterStep([], (0, []), all);
    for i := 0 to cnt
      invariant off >= start + 2 && m == ToMap(done)
      invariant all == if off <= |record| then After(done, NxItems(record[off..], cnt - i))
                       else if i < cnt then Failed else Items(done, [])
    {
      if off <= |record| { NxItemsStep(record, off, cnt - i); }
      if off + 4 > |record| { return None; }
      var id, len := U16(record, off), U16(record, off + 2);
      var payload := Subarray(record, off + 4, off + 4 + len);
      ghost var item := (id, payload);
      if off + 4 + len <= |record| {
        AfterStep(done, item, NxItems(record[off + 4 + len..], cnt - i - 1));
      }
      assert (done + [item])[..|done|] == done;
      done := done + [item];
      m := m[id := payload];
      off := off + 4 + len;
    }
    if off <= |record| { NoNxItems(record[off..]); }
    assert done + [] == done;
    out := Some(m);
  }

  lemma NoNxItems(s: seq<byte>)
    ensures NxItems(s, 0) == Items([], s)
  {
  }

  lemma NxItemsStep(record: seq<byte>, off: nat, cnt: nat)
    requires off <= |record| && cnt > 0
    ensures off + 4 > |record| ==> NxItems(record[off..], cnt).Failed?
    ensures off + 4 <= |record| ==>
      var end := off + 4 + U16(record, off + 2);
      var item := (U16(record, off), Subarray(record, off + 4, end));
      NxItems(record[off..], cnt) ==
      if end <= |record| then After([item], NxItems(record[end..], cnt - 1))
      else if cnt == 1 then Items([item], []) else Failed
  {
    if off + 4 <= |record| {
      var s := record[off..];
      var end := off + 4 + U16(record, off + 2);
      assert U16(s, 0) == U16(record, off) && U16(s, 2) == U16(record, off + 2);
      if end <= |record| {
        assert s[4..end - off] == record[off + 4..end] && s[end - off..] == record[end..];
      } else {
        assert s[4..] == record[off + 4..];
        assert Subarray(record, off + 4, end) == record[off + 4..];
      }
    }
  }

  /** On a walked record the reader finds exactly the record's NX elements and stops at its end. */
  lemma Nx8eOnRecord(record: seq<byte>)
    requires IsRecord(record, SHAPE_8E)
    ensures NxScan(record).Items? && NxScan(record).rest == []
    ensures Nx8e(record) == Some(ToMap(NxScan(record).items))
  {
    hide SkipGroups, NxItems, SkipNx;
    var nx := SkipGroups(record[HEAD + 4..], SHAPE_8E, VALUE_SIZES).rest;
    NxItemsMatchWalk(nx[2..], U16(nx, 0));
  }

  lemma {:induction false} NxItemsMatchWalk(s: seq<byte>, cnt: nat)
    requires SkipNx(s, cnt).At?
    ensures NxItems(s, cnt).Items? && NxItems(s, cnt).rest == SkipNx(s, cnt).rest && |NxItems(s, cnt).items| == cnt
  {
    if cnt > 0 {
      NxItemsMatchWalk(s[4 + U16(s, 2)..], cnt - 1);
    }
  }

  // ----- Codec 16 -----

  function GroupItems(s: seq<byte>, width: nat, cnt: nat): Scan<nat> {
    if cnt == 0 then Items([], s)
    else if |s| < 2 + width then Failed
    else After([(U16(s, 0), Big(s[2..2 + width]))], GroupItems(s[2 + width..], width, cnt - 1))
  }

  function Items16(s: seq<byte>, sizes: seq<nat>): Scan<nat>
    decreases |sizes|
  {
    if sizes == [] then Items([], s)
    else if |s| < 1 then Failed
    else
      match GroupItems(s[1..], sizes[0], s[0])
      case Failed => Failed
      case Items(items, rest) => After(items, Items16(rest, sizes[1..]))
  }

  const IO16_COUNT := HEAD + 2 + 1

  /** The IO elements of a Codec 16 record in wire order. */
  function Io16Scan(record: seq<byte>): Scan<nat> {
    if |record| < IO16_COUNT + 1 then Failed else Items16(record[IO16_COUNT + 1..], VALUE_SIZES)
  }

  function Io16(record: seq<byte>): Option<map<nat, nat>> {
    match Io16Scan(record)
    case Failed => None
    case Items(items, _) =>
      if |ToMap(items)| == record[IO16_COUNT] then Some(ToMap(items)) else None
  }

  method ExtractIo16(record: seq<byte>) returns (r: Option<map<nat, nat>>)
    ensures r == Io16(record)
  {
    hide Items16, GroupItems;
    var io: map<nat, nat> := map[];
    var off := IO16_COUNT;
    if off + 1 > |record| { return None; }
    var total := record[off];
    off := off + 1;
    ghost var done: seq<(nat, nat)> := [];
    AfterStep([], (0, 0), Items16(record[off..], VALUE_SIZES));
    for g := 0 to 4
      invariant IO16_COUNT < off <= |record| && io == ToMap(done)
      invariant Io16Scan(record) == After(done, Items16(record[off..], VALUE_SIZES[g..]))
    {
      var width := VALUE_SIZES[g];
      Items16Step(record, off, VALUE_SIZES[g..]);
      if off + 1 > |record| { return None; }
      var count := record[off];
      off := off + 1;
      var ok;
      ghost var group;
      ghost var before := done;
      ok, off, io, group := GroupLoop(record, off, width, count, io, before);
      if !ok { return None; }
      done := before + group;
      AfterTwice(before, group, Items16(record[off..], VALUE_SIZES[g + 1..]));
      assert VALUE_SIZES[g..][1..] == VALUE_SIZES[g + 1..];
    }
    NoItems16(record[off..]);
    assert done + [] == done;
    r := if |io| != total then None else Some(io);
  }

  /** The elements of one group, added to the map of those before. */
  method GroupLoop(record: seq<byte>, start: nat, width: nat, count: nat, before: map<nat, nat>, ghost done: seq<(nat, nat)>)
    returns (ok: bool, off: nat, io: map<nat, nat>, ghost group: seq<(nat, nat)>)
    requires start <= |record| && before == ToMap(done)
    ensures ok ==> start <= off <= |record| && io == ToMap(done + group)
    ensures GroupItems(record[start..], width, count) == if ok then Items(group, record[off..]) else Failed
  {
    hide GroupItems;
    off, io, group := start, before, [];
    ghost var whole := GroupItems(record[off..], width, count);
    AfterStep([], (0, 0), whole);
    assert done + [] == done;
    for i := 0 to count
      invariant start <= off <= |record| && io == ToMap(done + group)
      invariant whole == After(group, GroupItems(record[off..], width, count - i))
    {
      GroupItemsStep(record, off, width, count - i);
      if off + 2 + width > |record| { return false, off, io, group; }
      var id := U16(record, off);
      var v := Big(record[off + 2..off + 2 + width]);
      AfterStep(group, (id, v), GroupItems(record[off + 2 + width..], width, count - i - 1));
      assert (done + (group + [(id, v)]))[..|done + group|] == done + group;
      group, io := group + [(id, v)], io[id := v];
      off := off + 2 + width;
    }
    NoGroupItems(record[off..], width);
    assert group + [] == group;
    ok := true;
  }

  lemma AfterTwice<T>(a: seq<(nat, T)>, b: seq<(nat, T)>, s: Scan<T>)
    ensures After(a, After(b, s)) == After(a + b, s)
  {
    if s.Items? {
      assert a + (b + s.items) == (a + b) + s.items;
    }
  }

  lemma NoItems16(s: seq<byte>)
    ensures Items16(s, []) == Items([], s)
  {
  }

  lemma NoGroupItems(s: seq<byte>, width: nat)
    ensures GroupItems(s, width, 0) == Items([], s)
  {
  }

  lemma Items16Step(record: seq<byte>, off: nat, sizes: seq<nat>)
    requires off <= |record| && sizes != []
    ensures Items16(record[off..], sizes) ==
      if off == |record| then Failed
      else match GroupItems(record[off + 1..], sizes[0], record[off])
           case Failed => Failed
           case Items(items, rest) => After(items, Items16(rest, sizes[1..]))
  {
    if off < |record| {
      assert record[off..][1..] == record[off + 1..];
    }
  }

  lemma GroupItemsStep(record: seq<byte>, off: nat, width: nat, cnt: nat)
    requires off <= |record| && cnt > 0
    ensures var end := off + 2 + width;
      GroupItems(record[off..], width, cnt) ==
      if end > |record| then Failed
      else After([(U16(record, off), Big(record[off + 2..end]))], GroupItems(record[end..], width, cnt - 1))
  {
    var end := off + 2 + width;
    if end <= |record| {
      var s := record[off..];
      assert U16(s, 0) == U16(record, off);
      assert s[2..2 + width] == record[off + 2..end] && s[2 + width..] == record[end..];
    }
  }

  lemma {:induction false} GroupItemsMatchWalk(s: seq<byte>, width: nat, cnt: nat)
    ensures GroupItems(s, width, cnt).Items? <==> cnt * (2 + width) <= |s|
    ensures cnt * (2 + width) <= |s| ==>
      GroupItems(s, width, cnt).rest == s[cnt * (2 + width)..] && |GroupItems(s, width, cnt).items| == cnt
  {
    if cnt > 0 {
      assert cnt * (2 + width) == (cnt - 1) * (2 + width) + 2 + width;
      if |s| >= 2 + width {
        GroupItemsMatchWalk(s[2 + width..], width, cnt - 1);
        if cnt * (2 + width) <= |s| {
          assert s[2 + width..][(cnt - 1) * (2 + width)..] == s[cnt * (2 + width)..];
        }
      }
    } else {
      assert s[0..] == s;
    }
  }

  lemma {:induction false} Items16MatchWalk(s: seq<byte>, sizes: seq<nat>)
    requires SkipGroups(s, SHAPE_16, sizes).At?
    ensures var c := SkipGroups(s, SHAPE_16, sizes);
      && Items16(s, sizes).Items? && Items16(s, sizes).rest == c.rest && |Items16(s, sizes).items| == c.elements
    decreases |sizes|
  {
    if sizes != [] {
      var n := GroupLength(s, SHAPE_16, sizes[0]);
      assert n == 1 + s[0] as int * (2 + sizes[0]);
      GroupItemsMatchWalk(s[1..], sizes[0], s[0]);
      assert s[1..][n - 1..] == s[n..];
      Items16MatchWalk(s[n..], sizes[1..]);
    }
  }

  /** On a walked Codec 16 record the reader passes over exactly the record, and refuses it if and
      only if some IO id occurs twice; an accepted map holds every element under its id. */
  lemma Io16OnRecord(record: seq<byte>)
    requires IsRecord(record, SHAPE_16)
    ensures Io16Scan(record).Items? && Io16Scan(record).rest == []
    ensures Io16(record).Some? <==> DistinctIds(Io16Scan(record).items)
    ensures Io16(record).Some? ==> forall i :: 0 <= i < |Io16Scan(record).items| ==>
              var (id, v) := Io16Scan(record).items[i];
              id in Io16(record).value && Io16(record).value[id] == v
  {
    hide SkipGroups, Items16, ToMap;
    Items16MatchWalk(record[IO16_COUNT + 1..], VALUE_SIZES);
    var items := Io16Scan(record).items;
    ToMapSize(items);
    if DistinctIds(items) {
      forall i | 0 <= i < |items| ensures items[i].0 in ToMap(items) && ToMap(items)[items[i].0] == items[i].1 {
        ToMapLookup(items, i);
      }
    }
  }

  // ----- the elements are the bytes they were read from -----

  /** `v` in `width` bytes, most significant first. */
  function BigBytes(v: nat, width: nat): seq<byte> {
    if width == 0 then [] else BigBytes(v / 0x100, width - 1) + [v % 0x100]
  }

  lemma {:induction false} BigBytesOfBig(s: seq<byte>)
    ensures BigBytes(Big(s), |s|) == s
  {
    if s != [] {
      BigBytesOfBig(s[..|s| - 1]);
    }
  }

  /** Ids of two bytes, each followed by its value. */
  ghost predicate IsGroupWire(s: seq<byte>, items: seq<(nat, nat)>, width: nat) {
    if items == [] then s == []
    else
      && |s| >= 2 + width && items[0].0 < 0x1_0000
      && s[..2] == W16(items[0].0) && s[2..2 + width] == BigBytes(items[0].1, width)
      && IsGroupWire(s[2 + width..], items[1..], width)
  }

  /** A count, that many elements, and so on for each size; the elements in order are `items`. */
  ghost predicate IsElementWire(s: seq<byte>, items: seq<(nat, nat)>, sizes: seq<nat>)
    decreases |sizes|
  {
    if sizes == [] then s == [] && items == []
    else
      && s != [] && s[0] <= |items| && 1 + s[0] * (2 + sizes[0]) <= |s|
      && var end := 1 + s[0] * (2 + sizes[0]);
        && IsGroupWire(s[1..end], items[..s[0]], sizes[0])
        && IsElementWire(s[end..], items[s[0]..], sizes[1..])
  }

  lemma {:induction false} GroupItemsWire(s: seq<byte>, width: nat, cnt: nat)
    requires cnt * (2 + width) <= |s|
    ensures GroupItems(s, width, cnt).Items? && |GroupItems(s, width, cnt).items| == cnt
    ensures GroupItems(s, width, cnt).rest == s[cnt * (2 + width)..]
    ensures IsGroupWire(s[..cnt * (2 + width)], GroupItems(s, width, cnt).items, width)
  {
    hide GroupItems, IsGroupWire;
    GroupItemsMatchWalk(s, width, cnt);
    var e := 2 + width;
    if cnt == 0 {
      NoGroupItems(s, width);
      EmptyGroupWire(width);
    } else {
      assert cnt * e == (cnt - 1) * e + e;
      var more := GroupItems(s[e..], width, cnt - 1);
      GroupItemsWire(s[e..], width, cnt - 1);
      WireStep(s, width, cnt, cnt * e, more.items);
      GroupItemsFirst(s, width, cnt);
    }
  }

  lemma EmptyGroupWire(width: nat)
    ensures IsGroupWire([], [], width)
  {
  }

  lemma GroupItemsFirst(s: seq<byte>, width: nat, cnt: nat)
    requires cnt > 0 && |s| >= 2 + width
    ensures GroupItems(s, width, cnt) ==
            After([(U16(s, 0), Big(s[2..2 + width]))], GroupItems(s[2 + width..], width, cnt - 1))
  {
  }

  lemma WireStep(s: seq<byte>, width: nat, cnt: nat, end: nat, more: seq<(nat, nat)>)
    requires 2 + width <= end <= |s|
    requires IsGroupWire(s[2 + width..][..end - (2 + width)], more, width)
    ensures IsGroupWire(s[..end], [(U16(s, 0), Big(s[2..2 + width]))] + more, width)
  {
    hide Big, BigBytes;
    var e := 2 + width;
    var t := s[..end];
    BigBytesOfBig(s[2..e]);
    ShortFieldIsUnique(s, 0);
    assert t[..2] == s[..2] && t[2..e] == s[2..e] && t[e..] == s[e..][..end - e];
    assert ([(U16(s, 0), Big(s[2..e]))] + more)[1..] == more;
  }

  lemma {:induction false} Items16Wire(s: seq<byte>, sizes: seq<nat>)
    requires SkipGroups(s, SHAPE_16, sizes).At? && SkipGroups(s, SHAPE_16, sizes).rest == []
    ensures Items16(s, sizes).Items? && IsElementWire(s, Items16(s, sizes).items, sizes)
    decreases |sizes|
  {
    hide GroupItems, IsGroupWire;
    if sizes != [] {
      var cnt := s[0];
      var n := GroupLength(s, SHAPE_16, sizes[0]);
      assert n == 1 + cnt * (2 + sizes[0]);
      GroupItemsWire(s[1..], sizes[0], cnt);
      assert s[1..][n - 1..] == s[n..] && s[1..][..n - 1] == s[1..n];
      Items16Wire(s[n..], sizes[1..]);
      var items := GroupItems(s[1..], sizes[0], cnt).items;
      var more := Items16(s[n..], sizes[1..]).items;
      assert (items + more)[..cnt] == items && (items + more)[cnt..] == more;
    }
  }

  /** The elements found in a walked Codec 16 record, written out again in their order as count, ids and
      big-endian values of 1, 2, 4 and 8 bytes, are the bytes that follow its element count. */
  lemma Io16IsOnTheWire(record: seq<byte>)
    requires IsRecord(record, SHAPE_16)
    ensures |record| > IO16_COUNT && Io16Scan(record).Items?
    ensures IsElementWire(record[IO16_COUNT + 1..], Io16Scan(record).items, VALUE_SIZES)
  {
    hide SkipGroups, Items16, IsElementWire;
    Items16Wire(record[IO16_COUNT + 1..], VALUE_SIZES);
  }

  function GenerationTypeOf(record: seq<byte>): Option<byte> {
    if |record| < 27 then None else Some(record[26])
  }
}
