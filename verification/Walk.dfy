/**
 * The record-boundary scanner for Codec 8, 8 Extended and 16 AVL data, and the readers that work on
 * the slices it cuts. Cursors are modelled by the bytes still ahead of them.
 */
module Walk {
  import opened Bytes
  import opened Options

  datatype RecordShape = RecordShape(
    idSize: nat, countSize: nat, eventIdSize: nat, generationType: bool, nxGroup: bool)
  {
    predicate Valid() {
      1 <= idSize <= 2 && 1 <= countSize <= 2 && 1 <= eventIdSize <= 2
    }
  }

  const SHAPE_8 := RecordShape(1, 1, 1, false, false)
  const SHAPE_8E := RecordShape(2, 2, 2, false, true)
  const SHAPE_16 := RecordShape(2, 1, 2, true, false)

  /** Timestamp, priority and GPS element. */
  const HEAD := 8 + 1 + 15
  const VALUE_SIZES := [1, 2, 4, 8]

  /** Bytes left after a scan and the elements it passed, or a field that ran past the end. */
  datatype Cursor = Overrun | At(rest: seq<byte>, elements: nat)
  {
    function Plus(n: nat): Cursor {
      match this
      case Overrun => Overrun
      case At(rest, m) => At(rest, m + n)
    }
  }

  function Width(s: seq<byte>, w: nat): nat
    requires 1 <= w <= 2 && w <= |s|
  {
    if w == 2 then U16(s, 0) else s[0]
  }

  /** Bytes of a group: its count, then that many ids and values. */
  function GroupLength(s: seq<byte>, shape: RecordShape, valueSize: nat): (n: nat)
    requires shape.Valid() && shape.countSize <= |s|
    ensures n >= shape.countSize
  {
    shape.countSize + Width(s, shape.countSize) * (shape.idSize + valueSize)
  }

  /** The fixed-size groups, one per entry of `sizes`. */
  function SkipGroups(s: seq<byte>, shape: RecordShape, sizes: seq<nat>): Cursor
    requires shape.Valid()
    decreases |sizes|
  {
    if sizes == [] then At(s, 0)
    else if |s| < shape.countSize then Overrun
    else
      var n := GroupLength(s, shape, sizes[0]);
      if |s| < n then Overrun
      else SkipGroups(s[n..], shape, sizes[1..]).Plus(Width(s, shape.countSize))
  }

  /** `cnt` variable-length elements of an NX group. */
  function SkipNx(s: seq<byte>, cnt: nat): Cursor {
    if cnt == 0 then At(s, 0)
    else if |s| < 4 then Overrun
    else
      var len := U16(s, 2);
      if |s| < 4 + len then Overrun
      else SkipNx(s[4 + len..], cnt - 1).Plus(1)
  }

  function SkipNxGroup(s: seq<byte>, shape: RecordShape): Cursor
    requires shape.Valid()
  {
    if !shape.nxGroup then At(s, 0)
    else if |s| < shape.countSize then Overrun
    else SkipNx(s[shape.countSize..], Width(s, shape.countSize))
  }

  /** The groups and the NX group of a record, as one scan. */
  function SkipElements(s: seq<byte>, shape: RecordShape): Cursor
    requires shape.Valid()
  {
    match SkipGroups(s, shape, VALUE_SIZES)
    case Overrun => Overrun
    case At(nx, fixed) => SkipNxGroup(nx, shape).Plus(fixed)
  }

  /** Bytes of a record before its element count. */
  function CountOffset(shape: RecordShape): nat {
    HEAD + shape.eventIdSize + if shape.generationType then 1 else 0
  }

  /** One record; `Overrun` also stands for an element count that does not match the groups. */
  function SkipRecord(s: seq<byte>, shape: RecordShape): Cursor
    requires shape.Valid()
  {
    var o := CountOffset(shape);
    if |s| < o + shape.countSize then Overrun
    else
      var total := Width(s[o..], shape.countSize);
      var c := SkipElements(s[o + shape.countSize..], shape);
      if c.At? && c.elements == total then c else Overrun
  }

  function Prepend(records: seq<seq<byte>>, more: Option<seq<seq<byte>>>): Option<seq<seq<byte>>> {
    if more.None? then None else Some(records + more.value)
  }

  /** The records of a data region, or `None` for a FrameError. */
  function Split(s: seq<byte>, shape: RecordShape): Option<seq<seq<byte>>>
    requires shape.Valid()
    decreases |s|
  {
    if s == [] then Some([])
    else
      match SkipRecord(s, shape)
      case Overrun => None
      case At(rest, _) =>
        RecordSuffix(s, shape);
        Prepend([s[..|s| - |rest|]], Split(rest, shape))
  }

  /** The loop over the four fixed-size groups, from offset `start`. */
  method ScanGroups(data: seq<byte>, start: nat, shape: RecordShape) returns (ok: bool, off: nat, elements: nat)
    requires shape.Valid() && start <= |data|
    ensures ok ==> start <= off <= |data|
    ensures SkipGroups(data[start..], shape, VALUE_SIZES) == if ok then At(data[off..], elements) else Overrun
  {
    hide SkipGroups;
    off, elements := start, 0;
    for g := 0 to 4
      invariant start <= off <= |data|
      invariant SkipGroups(data[start..], shape, VALUE_SIZES) ==
                SkipGroups(data[off..], shape, VALUE_SIZES[g..]).Plus(elements)
    {
      GroupStep(data, off, shape, VALUE_SIZES[g..]);
      if off + shape.countSize > |data| { return false, off, elements; }
      var cnt := Width(data[off..], shape.countSize);
      var body := cnt * (shape.idSize + VALUE_SIZES[g]);
      if off + shape.countSize + body > |data| { return false, off, elements; }
      assert VALUE_SIZES[g..][1..] == VALUE_SIZES[g + 1..];
      elements := elements + cnt;
      off := off + shape.countSize + body;
    }
    ok := true;
    NoGroups(data[off..], shape);
  }

  lemma NoGroups(s: seq<byte>, shape: RecordShape)
    requires shape.Valid()
    ensures SkipGroups(s, shape, []) == At(s, 0)
  {
  }

  lemma GroupStep(data: seq<byte>, off: nat, shape: RecordShape, sizes: seq<nat>)
    requires shape.Valid() && off <= |data| && sizes != []
    ensures off + shape.countSize > |data| ==> SkipGroups(data[off..], shape, sizes).Overrun?
    ensures off + shape.countSize <= |data| ==>
              var cnt := Width(data[off..], shape.countSize);
              var end := off + GroupLength(data[off..], shape, sizes[0]);
              SkipGroups(data[off..], shape, sizes) ==
              if end > |data| then Overrun else SkipGroups(data[end..], shape, sizes[1..]).Plus(cnt)
  {
    if off + shape.countSize <= |data| {
      var n := GroupLength(data[off..], shape, sizes[0]);
      if off + n <= |data| {
        assert data[off..][n..] == data[off + n..];
      }
    }
  }

  /** The loop over an NX group, from offset `start`. */
  method ScanNx(data: seq<byte>, start: nat, shape: RecordShape) returns (ok: bool, off: nat, elements: nat)
    requires shape.Valid() && start <= |data| && shape.nxGroup
    ensures ok ==> start <= off <= |data|
    ensures SkipNxGroup(data[start..], shape) == if ok then At(data[off..], elements) else Overrun
  {
    hide SkipNx;
    off, elements := start, 0;
    if off + shape.countSize > |data| { return false, off, elements; }
    elements := Width(data[off..], shape.countSize);
    off := off + shape.countSize;
    assert data[start..][shape.countSize..] == data[off..];
    for i := 0 to elements
      invariant start <= off <= |data|
      invariant SkipNxGroup(data[start..], shape) ==
                SkipNx(data[off..], elements - i).Plus(i)
    {
      NxStep(data, off, elements - i);
      if off + 4 > |data| { return false, off, elements; }
      var len := U16(data, off + 2);
      if off + 4 + len > |data| { return false, off, elements; }
      off := off + 4 + len;
    }
    ok := true;
    NoNx(data[off..]);
  }

  lemma NoNx(s: seq<byte>)
    ensures SkipNx(s, 0) == At(s, 0)
  {
  }

  lemma NxStep(data: seq<byte>, off: nat, cnt: nat)
    requires off <= |data| && cnt > 0
    ensures off + 4 > |data| ==> SkipNx(data[off..], cnt).Overrun?
    ensures off + 4 <= |data| ==>
              var end := off + 4 + U16(data, off + 2);
              SkipNx(data[off..], cnt) == if end > |data| then Overrun else SkipNx(data[end..], cnt - 1).Plus(1)
  {
    if off + 4 <= |data| {
      var len := U16(data, off + 2);
      assert U16(data[off..], 2) == len;
      if off + 4 + len <= |data| {
        assert data[off..][4 + len..] == data[off + 4 + len..];
      }
    }
  }

  /** One record from offset `start`. */
  method ScanRecord(data: seq<byte>, start: nat, shape: RecordShape) returns (ok: bool, off: nat)
    requires shape.Valid() && start < |data|
    ensures ok ==> start < off <= |data|
    ensures match SkipRecord(data[start..], shape)
            case Overrun => !ok
            case At(rest, _) => ok && rest == data[off..]
  {
    hide SkipGroups, SkipNxGroup, Width;
    var o := CountOffset(shape);
    if start + o + shape.countSize > |data| { return false, start; }
    off := start + o;
    assert data[start..][o..] == data[off..];
    var nTotal := Width(data[off..], shape.countSize);
    off := off + shape.countSize;
    assert data[start..][o + shape.countSize..] == data[off..];
    var elements;
    ok, off, elements := ScanGroups(data, off, shape);
    if !ok { return; }
    if shape.nxGroup {
      var more;
      ok, off, more := ScanNx(data, off, shape);
      if !ok { return; }
      elements := elements + more;
    } else {
      NoNxGroup(data[off..], shape);
    }
    ok := elements == nTotal;
  }

  lemma NoNxGroup(s: seq<byte>, shape: RecordShape)
    requires shape.Valid() && !shape.nxGroup
    ensures SkipNxGroup(s, shape) == At(s, 0)
  {
  }

  lemma PrependTwice(a: seq<seq<byte>>, b: seq<seq<byte>>, more: Option<seq<seq<byte>>>)
    ensures Prepend(a, Prepend(b, more)) == Prepend(a + b, more)
    ensures Prepend([], more) == more
  {
    if more.Some? {
      assert a + (b + more.value) == (a + b) + more.value;
      assert [] + more.value == more.value;
    }
  }

  method WalkRecords(data: seq<byte>, shape: RecordShape) returns (r: Option<seq<seq<byte>>>)
    requires shape.Valid()
    ensures r == Split(data, shape)
  {
    hide SkipRecord;
    var records := [];
    var off := 0;
    assert data[0..] == data;
    PrependTwice([], [], Split(data, shape));
    while off < |data|
      invariant off <= |data|
      invariant Split(data, shape) == Prepend(records, Split(data[off..], shape))
    {
      var start := off;
      var ok;
      ok, off := ScanRecord(data, start, shape);
      if !ok { return None; }
      assert data[start..][..|data[start..]| - |data[off..]|] == data[start..off];
      PrependTwice(records, [data[start..off]], Split(data[off..], shape));
      records := records + [data[start..off]];
    }
    assert data[off..] == [];
    assert records + [] == records;
    r := Some(records);
  }

  // ----- the split is exactly the one into records -----

  /** `r` is one whole record and nothing more. */
  ghost predicate IsRecord(r: seq<byte>, shape: RecordShape)
    requires shape.Valid()
  {
    SkipRecord(r, shape).At? && SkipRecord(r, shape).rest == []
  }

  function Concat(parts: seq<seq<byte>>): seq<byte> {
    if parts == [] then [] else parts[0] + Concat(parts[1..])
  }

  /** `rest` is what remains of `s` once its first bytes are passed. */
  ghost predicate Suffix(rest: seq<byte>, s: seq<byte>) {
    |rest| <= |s| && s[|s| - |rest|..] == rest
  }

  lemma SuffixOfSuffix(rest: seq<byte>, s: seq<byte>, n: nat)
    requires n <= |s| && Suffix(rest, s[n..])
    ensures Suffix(rest, s) && n + |rest| <= |s|
  {
    assert s[n..][|s| - n - |rest|..] == s[|s| - |rest|..];
  }

  lemma SameWidth(s: seq<byte>, t: seq<byte>, w: nat)
    requires 1 <= w <= 2 && w <= |s| && w <= |t| && s[..w] == t[..w]
    ensures Width(s, w) == Width(t, w)
  {
    assert s[0] == s[..w][0] && t[0] == t[..w][0];
    if w == 2 {
      assert s[1] == s[..w][1] && t[1] == t[..w][1];
    }
  }

  lemma SameGroupLength(s: seq<byte>, t: seq<byte>, shape: RecordShape, valueSize: nat)
    requires shape.Valid() && shape.countSize <= |s| && shape.countSize <= |t|
    requires s[..shape.countSize] == t[..shape.countSize]
    ensures Width(s, shape.countSize) == Width(t, shape.countSize)
    ensures GroupLength(s, shape, valueSize) == GroupLength(t, shape, valueSize)
  {
    SameWidth(s, t, shape.countSize);
  }

  lemma PeelFront(u: seq<byte>, tail: seq<byte>, n: nat)
    requires n <= |u|
    ensures (u + tail)[n..] == u[n..] + tail && (u + tail)[..n] == u[..n]
  {
  }

  lemma {:induction false} GroupsSuffix(s: seq<byte>, shape: RecordShape, sizes: seq<nat>)
    requires shape.Valid() && SkipGroups(s, shape, sizes).At?
    ensures Suffix(SkipGroups(s, shape, sizes).rest, s)
    decreases |sizes|
  {
    if sizes != [] {
      hide GroupLength;
      var n := GroupLength(s, shape, sizes[0]);
      GroupsSuffix(s[n..], shape, sizes[1..]);
      SuffixOfSuffix(SkipGroups(s, shape, sizes).rest, s, n);
    }
  }

  lemma {:induction false} GroupsPrefix(u: seq<byte>, rest: seq<byte>, tail: seq<byte>,
      shape: RecordShape, sizes: seq<nat>, k: nat)
    requires shape.Valid() && SkipGroups(u + rest, shape, sizes) == At(rest, k)
    ensures SkipGroups(u + tail, shape, sizes) == At(tail, k)
    decreases |sizes|
  {
    var s, t := u + rest, u + tail;
    if sizes == [] {
      assert |s| == |rest|;
      assert t == tail;
    } else {
      hide Width, GroupLength;
      var n := GroupLength(s, shape, sizes[0]);
      GroupsSuffix(s[n..], shape, sizes[1..]);
      PeelFront(u, rest, n);
      PeelFront(u, tail, n);
      SameGroupLength(s, t, shape, sizes[0]) by {
        PeelFront(u, rest, shape.countSize);
        PeelFront(u, tail, shape.countSize);
      }
      GroupsPrefix(u[n..], rest, tail, shape, sizes[1..], k - Width(s, shape.countSize));
    }
  }

  lemma {:induction false} NxSuffix(s: seq<byte>, cnt: nat)
    requires SkipNx(s, cnt).At?
    ensures Suffix(SkipNx(s, cnt).rest, s)
  {
    if cnt > 0 {
      var n := 4 + U16(s, 2);
      NxSuffix(s[n..], cnt - 1);
      SuffixOfSuffix(SkipNx(s, cnt).rest, s, n);
    }
  }

  lemma {:induction false} NxPrefix(u: seq<byte>, rest: seq<byte>, tail: seq<byte>, cnt: nat, k: nat)
    requires SkipNx(u + rest, cnt) == At(rest, k)
    ensures SkipNx(u + tail, cnt) == At(tail, k)
    decreases cnt
  {
    var s, t := u + rest, u + tail;
    if cnt == 0 {
      assert |s| == |rest|;
      assert t == tail;
    } else {
      var n := NxFirst(u, rest, tail, cnt, k);
      PeelFront(u, tail, n);
      NxPrefix(u[n..], rest, tail, cnt - 1, k - 1);
    }
  }

  /** The first element lies within `u`. */
  lemma NxFirst(u: seq<byte>, rest: seq<byte>, tail: seq<byte>, cnt: nat, k: nat) returns (n: nat)
    requires cnt > 0 && SkipNx(u + rest, cnt) == At(rest, k)
    ensures 4 <= n <= |u| && k > 0 && U16(u + tail, 2) == n - 4
    ensures SkipNx(u[n..] + rest, cnt - 1) == At(rest, k - 1)
  {
    var s := u + rest;
    n := 4 + U16(s, 2);
    NxSuffix(s[n..], cnt - 1);
    hide SkipNx;
    assert |rest| <= |s| - n;
    PeelFront(u, rest, n);
  }

  lemma NxGroupSuffix(s: seq<byte>, shape: RecordShape)
    requires shape.Valid() && SkipNxGroup(s, shape).At?
    ensures Suffix(SkipNxGroup(s, shape).rest, s)
    ensures shape.nxGroup ==> |SkipNxGroup(s, shape).rest| + shape.countSize <= |s|
  {
    if shape.nxGroup {
      NxSuffix(s[shape.countSize..], Width(s, shape.countSize));
      SuffixOfSuffix(SkipNxGroup(s, shape).rest, s, shape.countSize);
    }
  }

  lemma NxGroupPrefix(u: seq<byte>, rest: seq<byte>, tail: seq<byte>, shape: RecordShape, k: nat)
    requires shape.Valid() && SkipNxGroup(u + rest, shape) == At(rest, k)
    ensures SkipNxGroup(u + tail, shape) == At(tail, k)
  {
    var s, t := u + rest, u + tail;
    if !shape.nxGroup {
      assert |s| == |rest|;
      assert t == tail;
    } else {
      var w := shape.countSize;
      NxGroupSuffix(s, shape);
      PeelFront(u, rest, w);
      PeelFront(u, tail, w);
      SameWidth(s, t, w);
      NxPrefix(u[w..], rest, tail, Width(s, w), k);
    }
  }

  lemma RecordSuffix(s: seq<byte>, shape: RecordShape)
    requires shape.Valid() && SkipRecord(s, shape).At?
    ensures var rest := SkipRecord(s, shape).rest;
      && Suffix(rest, s) && |rest| + CountOffset(shape) + shape.countSize <= |s|
      && s == s[..|s| - |rest|] + rest
  {
    hide SkipElements;
    var o := CountOffset(shape) + shape.countSize;
    ElementsSuffix(s[o..], shape);
    SuffixOfSuffix(SkipRecord(s, shape).rest, s, o);
  }

  /** A record's extent is decided by its own bytes, whatever follows. */
  lemma RecordPrefix(u: seq<byte>, rest: seq<byte>, tail: seq<byte>, shape: RecordShape, k: nat)
    requires shape.Valid() && SkipRecord(u + rest, shape) == At(rest, k)
    ensures SkipRecord(u + tail, shape) == At(tail, k)
  {
    hide SkipElements, Width;
    var s, t := u + rest, u + tail;
    RecordSuffix(s, shape);
    var w := shape.countSize;
    var o := CountOffset(shape);
    PeelFront(u, rest, o + w);
    PeelFront(u, tail, o + w);
    assert s[o..][..w] == t[o..][..w];
    SameWidth(s[o..], t[o..], w);
    ElementsPrefix(u[o + w..], rest, tail, shape);
  }

  lemma ElementsSuffix(s: seq<byte>, shape: RecordShape)
    requires shape.Valid() && SkipElements(s, shape).At?
    ensures Suffix(SkipElements(s, shape).rest, s)
  {
    hide SkipGroups, SkipNxGroup;
    GroupsSuffix(s, shape, VALUE_SIZES);
    var nx := SkipGroups(s, shape, VALUE_SIZES).rest;
    NxGroupSuffix(nx, shape);
    assert s[|s| - |nx|..] == nx;
    SuffixOfSuffix(SkipElements(s, shape).rest, s, |s| - |nx|);
  }

  lemma ElementsPrefix(g: seq<byte>, rest: seq<byte>, tail: seq<byte>, shape: RecordShape)
    requires shape.Valid() && SkipElements(g + rest, shape).At? && SkipElements(g + rest, shape).rest == rest
    ensures SkipElements(g + tail, shape) == At(tail, SkipElements(g + rest, shape).elements)
  {
    hide SkipGroups, SkipNxGroup;
    var c := SkipGroups(g + rest, shape, VALUE_SIZES);
    var k := SkipNxGroup(c.rest, shape).elements;
    GroupsSuffix(g + rest, shape, VALUE_SIZES);
    NxGroupSuffix(c.rest, shape);
    var m := |g + rest| - |c.rest|;
    assert g + rest == g[..m] + c.rest && c.rest == g[m..] + rest;
    assert g + tail == g[..m] + (g[m..] + tail);
    GroupsPrefix(g[..m], c.rest, g[m..] + tail, shape, VALUE_SIZES, c.elements);
    NxGroupPrefix(g[m..], rest, tail, shape, k);
  }

  /** The walker accepts a region exactly when it is a run of whole records, and then returns them. */
  lemma {:induction false} SplitIsUnique(s: seq<byte>, shape: RecordShape, records: seq<seq<byte>>)
    requires shape.Valid()
    ensures Split(s, shape) == Some(records) <==>
            Concat(records) == s && forall r :: r in records ==> IsRecord(r, shape)
    decreases |s|
  {
    hide SkipRecord;
    if s == [] {
      if records != [] && IsRecord(records[0], shape) {
        RecordSuffix(records[0], shape);
        assert |Concat(records)| >= |records[0]| > 0;
      }
    } else {
      if Split(s, shape) == Some(records) {
        SplitYieldsRecords(s, shape, records);
        var rest := SkipRecord(s, shape).rest;
        SplitIsUnique(rest, shape, records[1..]);
        assert forall r :: r in records ==> r == records[0] || r in records[1..];
      }
      if records != [] && Concat(records) == s && IsRecord(records[0], shape) {
        var rest := Concat(records[1..]);
        RecordPrefix(records[0], [], rest, shape, SkipRecord(records[0], shape).elements) by {
          assert records[0] + [] == records[0];
        }
        RecordSuffix(records[0], shape);
        SplitIsUnique(rest, shape, records[1..]);
        assert s[..|s| - |rest|] == records[0];
        assert records == [records[0]] + records[1..];
        assert forall r :: r in records[1..] ==> r in records;
      }
    }
  }

  lemma SplitYieldsRecords(s: seq<byte>, shape: RecordShape, records: seq<seq<byte>>)
    requires shape.Valid() && s != [] && Split(s, shape) == Some(records)
    ensures var c := SkipRecord(s, shape);
      && c.At? && |c.rest| < |s| && records != [] && IsRecord(records[0], shape)
      && s == records[0] + c.rest && Split(c.rest, shape) == Some(records[1..])
  {
    hide SkipRecord;
    var c := SkipRecord(s, shape);
    RecordSuffix(s, shape);
    var u := s[..|s| - |c.rest|];
    RecordPrefix(u, c.rest, [], shape, c.elements);
    assert u + [] == u;
    assert records == [u] + Split(c.rest, shape).value;
  }
}
