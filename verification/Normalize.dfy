/**
 * Normalising a record's IO elements: three are promoted to columns, every other one becomes an
 * attribute under its dictionary name or under `io_<id>`. Which key an element gets must not depend
 * on the order in which the device sent the elements, and no element may overwrite another.
 */
module Normalize {
  import opened Options

  type AvlId = nat

  /** A wire value: a number, or the bytes of a variable-length element. */
  datatype Value = Int(n: int) | Bytes(bytes: seq<int>)

  /** A dictionary row; `read` is the two's-complement reading the row calls for. */
  datatype Entry = Entry(name: string, read: int -> int)

  /** A dictionary in its insertion order; a JavaScript Map, so ids do not repeat. */
  type Dict = d: seq<(AvlId, Entry)> | forall i, j :: 0 <= i < j < |d| ==> d[i].0 != d[j].0 witness []

  const AVL_IGNITION: AvlId := 239
  const AVL_MOVEMENT: AvlId := 240
  const FORCED_ID_KEYS: set<AvlId> := {48, 84, 89}
  const BIGINT_LIMIT := 0x8000_0000_0000_0000
  const MAX_SAFE := 0x1F_FFFF_FFFF_FFFF

  /** A stored attribute: a number, a number too large for one (as text), or hex bytes. */
  datatype Attr = Number(n: int) | Text(n: int) | Hex(bytes: seq<int>)

  // ----- keys -----

  function Decimal(n: nat): (s: string)
    ensures s != []
  {
    var digit := ['0' + (n % 10) as char];
    if n < 10 then digit else Decimal(n / 10) + digit
  }

  function IoKey(id: AvlId): string {
    "io_" + Decimal(id)
  }

  lemma {:induction false} DecimalInjective(a: nat, b: nat)
    requires Decimal(a) == Decimal(b)
    ensures a == b
  {
    var s, t := Decimal(a), Decimal(b);
    assert s[|s| - 1] == '0' + (a % 10) as char && t[|t| - 1] == '0' + (b % 10) as char;
    if a >= 10 && b >= 10 {
      assert s[..|s| - 1] == Decimal(a / 10) && t[..|t| - 1] == Decimal(b / 10);
      DecimalInjective(a / 10, b / 10);
    }
  }

  lemma IoKeyInjective(a: AvlId, b: AvlId)
    requires IoKey(a) == IoKey(b)
    ensures a == b
  {
    assert IoKey(a)[3..] == Decimal(a) && IoKey(b)[3..] == Decimal(b);
    DecimalInjective(a, b);
  }

  function Find(dict: seq<(AvlId, Entry)>, id: AvlId): Option<Entry> {
    if dict == [] then None
    else if dict[0].0 == id then Some(dict[0].1)
    else Find(dict[1..], id)
  }

  lemma {:induction false} FindMember(dict: seq<(AvlId, Entry)>, id: AvlId)
    requires Find(dict, id).Some?
    ensures exists i :: 0 <= i < |dict| && dict[i] == (id, Find(dict, id).value)
  {
    if dict[0].0 != id {
      FindMember(dict[1..], id);
      var i :| 0 <= i < |dict[1..]| && dict[1..][i] == (id, Find(dict[1..], id).value);
      assert dict[i + 1] == (id, Find(dict, id).value);
    } else {
      assert dict[0] == (id, Find(dict, id).value);
    }
  }

  function Lower(c: char): char {
    if 'A' <= c <= 'Z' then 'a' + (c - 'A') else c
  }

  /** `/fuel/i` */
  predicate SaysFuel(name: string) {
    exists i :: 0 <= i <= |name| - 4 &&
      Lower(name[i]) == 'f' && Lower(name[i + 1]) == 'u' && Lower(name[i + 2]) == 'e' && Lower(name[i + 3]) == 'l'
  }

  predicate ForcedFuelKey(id: AvlId, entry: Option<Entry>) {
    id in FORCED_ID_KEYS && (entry.None? || SaysFuel(entry.value.name))
  }

  /** The id's name is also the name of another id. */
  predicate Ambiguous(dict: seq<(AvlId, Entry)>, id: AvlId) {
    exists i, j :: 0 <= i < |dict| && 0 <= j < |dict| && i != j && dict[i].0 == id && dict[j].1.name == dict[i].1.name
  }

  /** The ids that share their name with another id, by grouping the rows under their names. */
  method AmbiguousInTable(dict: Dict) returns (ids: set<AvlId>)
    ensures forall id: AvlId :: id in ids <==> Ambiguous(dict, id)
  {
    var byName: map<string, seq<AvlId>> := map[];
    for k := 0 to |dict|
      invariant forall name :: name in byName <==> NamedIds(dict[..k], name) != []
      invariant forall name :: name in byName ==> byName[name] == NamedIds(dict[..k], name)
    {
      assert dict[..k + 1][..k] == dict[..k];
      var (id, e) := dict[k];
      var before := if e.name in byName then byName[e.name] else [];
      byName := byName[e.name := before + [id]];
    }
    assert dict[..|dict|] == dict;
    ids := {};
    var todo := byName.Keys;
    while todo != {}
      invariant todo <= byName.Keys
      invariant forall id: AvlId :: id in ids <==>
                  exists name :: name in byName && name !in todo && |byName[name]| > 1 && id in byName[name]
    {
      var name :| name in todo;
      if |byName[name]| > 1 {
        ids := ids + set id | id in byName[name];
      }
      todo := todo - {name};
    }
    forall id: AvlId ensures id in ids <==> Ambiguous(dict, id) {
      SharedNameIsAmbiguous(dict, id);
    }
  }

  /** The ids of the rows called `name`, in order. */
  function NamedIds(dict: seq<(AvlId, Entry)>, name: string): seq<AvlId> {
    if dict == [] then []
    else
      var n := |dict| - 1;
      if dict[n].1.name == name then NamedIds(dict[..n], name) + [dict[n].0] else NamedIds(dict[..n], name)
  }

  lemma {:induction false} NamedIdsMembers(dict: seq<(AvlId, Entry)>, name: string)
    ensures forall id :: id in NamedIds(dict, name) <==> exists i :: 0 <= i < |dict| && dict[i].0 == id && dict[i].1.name == name
    ensures forall i, j :: 0 <= i < j < |dict| && dict[i].1.name == name && dict[j].1.name == name ==> |NamedIds(dict, name)| > 1
    ensures |NamedIds(dict, name)| > 1 ==>
              exists i, j :: 0 <= i < j < |dict| && dict[i].1.name == name && dict[j].1.name == name
    ensures NamedIds(dict, name) != [] ==> exists i :: 0 <= i < |dict| && dict[i].1.name == name
    ensures (exists i :: 0 <= i < |dict| && dict[i].1.name == name) ==> NamedIds(dict, name) != []
  {
    if dict != [] {
      var n := |dict| - 1;
      var front := dict[..n];
      NamedIdsMembers(front, name);
      forall id ensures id in NamedIds(dict, name) <==> exists i :: 0 <= i < |dict| && dict[i].0 == id && dict[i].1.name == name {
        if id in NamedIds(front, name) {
          var i :| 0 <= i < |front| && front[i].0 == id && front[i].1.name == name;
          assert dict[i] == front[i];
        }
        if exists i :: 0 <= i < |dict| && dict[i].0 == id && dict[i].1.name == name {
          var i :| 0 <= i < |dict| && dict[i].0 == id && dict[i].1.name == name;
          assert i < n ==> front[i] == dict[i];
        }
      }
      forall i, j | 0 <= i < j < |dict| && dict[i].1.name == name && dict[j].1.name == name
        ensures |NamedIds(dict, name)| > 1
      {
        assert front[i] == dict[i];
        assert j < n ==> front[j] == dict[j];
      }
      if |NamedIds(dict, name)| > 1 {
        if |NamedIds(front, name)| > 1 {
          var i, j :| 0 <= i < j < |front| && front[i].1.name == name && front[j].1.name == name;
          assert dict[i] == front[i] && dict[j] == front[j];
        } else {
          var i :| 0 <= i < |front| && front[i].1.name == name;
          assert dict[i].1.name == name && dict[n].1.name == name;
        }
      }
    }
  }

  lemma SharedNameIsAmbiguous(dict: Dict, id: AvlId)
    ensures Ambiguous(dict, id) <==>
            exists name :: NamedIds(dict, name) != [] && |NamedIds(dict, name)| > 1 && id in NamedIds(dict, name)
  {
    if Ambiguous(dict, id) {
      var i, j :| 0 <= i < |dict| && 0 <= j < |dict| && i != j && dict[i].0 == id && dict[j].1.name == dict[i].1.name;
      NamedIdsMembers(dict, dict[i].1.name);
      assert id in NamedIds(dict, dict[i].1.name);
    }
    if exists name :: NamedIds(dict, name) != [] && |NamedIds(dict, name)| > 1 && id in NamedIds(dict, name) {
      var name :| NamedIds(dict, name) != [] && |NamedIds(dict, name)| > 1 && id in NamedIds(dict, name);
      NamedIdsMembers(dict, name);
      var k :| 0 <= k < |dict| && dict[k].0 == id && dict[k].1.name == name;
      var i, j :| 0 <= i < j < |dict| && dict[i].1.name == name && dict[j].1.name == name;
      var other := if k == i then j else i;
      assert dict[other].1.name == dict[k].1.name;
    }
  }

  /** The first row called Total Odometer. */
  function OdometerId(dict: seq<(AvlId, Entry)>): Option<AvlId> {
    if dict == [] then None
    else if dict[0].1.name == "Total Odometer" then Some(dict[0].0)
    else OdometerId(dict[1..])
  }

  // ----- the loop over the elements -----

  type Element = (AvlId, Value)

  /** What the loop has produced so far. */
  datatype Columns = Columns(
    ignition: Option<bool>, movement: Option<bool>, odometer: Option<int>, attrs: map<string, Attr>)

  const NoColumns := Columns(None, None, None, map[])

  predicate Promoted(dict: seq<(AvlId, Entry)>, e: Element) {
    e.1.Int? && (e.0 == AVL_IGNITION || e.0 == AVL_MOVEMENT || Some(e.0) == OdometerId(dict))
  }

  /** The stored form of an element. */
  function Stored(dict: seq<(AvlId, Entry)>, e: Element): Attr {
    match e.1
    case Bytes(b) => Hex(b)
    case Int(v) =>
      var entry := Find(dict, e.0);
      var signed := if entry.Some? then entry.value.read(v) else v;
      if -MAX_SAFE <= signed <= MAX_SAFE then Number(signed) else Text(signed)
  }

  /** The dictionary name of an element, unless the name may not be used for it. */
  function NameOf(dict: seq<(AvlId, Entry)>, id: AvlId): Option<string> {
    var entry := Find(dict, id);
    if entry.None? || ForcedFuelKey(id, entry) || Ambiguous(dict, id) then None else Some(entry.value.name)
  }

  /** `inherited` is what every object answers to besides its own keys. */
  function KeyFor(dict: seq<(AvlId, Entry)>, inherited: set<string>, attrs: map<string, Attr>, id: AvlId): string {
    var name := NameOf(dict, id);
    var key := if name.Some? then name.value else IoKey(id);
    if key in attrs || key in inherited then IoKey(id) else key
  }

  function Absorb(dict: seq<(AvlId, Entry)>, inherited: set<string>, c: Columns, e: Element): Columns {
    var (id, v) := e;
    if id == AVL_IGNITION && v.Int? then c.(ignition := Some(v.n == 1))
    else if id == AVL_MOVEMENT && v.Int? then c.(movement := Some(v.n == 1))
    else if Some(id) == OdometerId(dict) && v.Int? then
      if -BIGINT_LIMIT <= v.n < BIGINT_LIMIT then c.(odometer := Some(v.n)) else c
    else c.(attrs := c.attrs[KeyFor(dict, inherited, c.attrs, id) := Stored(dict, e)])
  }

  function AbsorbAll(dict: seq<(AvlId, Entry)>, inherited: set<string>, io: seq<Element>): Columns {
    if io == [] then NoColumns
    else Absorb(dict, inherited, AbsorbAll(dict, inherited, io[..|io| - 1]), io[|io| - 1])
  }

  method NormalizeIo(dict: Dict, inherited: set<string>, io: seq<Element>) returns (c: Columns)
    ensures c == AbsorbAll(dict, inherited, io)
  {
    hide Ambiguous, SaysFuel, Decimal;
    var ambiguous := AmbiguousInTable(dict);
    var odoId := OdometerId(dict);
    var ignition: Option<bool>, movement: Option<bool>, odometer: Option<int> := None, None, None;
    var attrs: map<string, Attr> := map[];
    for i := 0 to |io|
      invariant Columns(ignition, movement, odometer, attrs) == AbsorbAll(dict, inherited, io[..i])
    {
      assert io[..i + 1][..i] == io[..i];
      var (id, v) := io[i];
      if id == AVL_IGNITION && v.Int? {
        ignition := Some(v.n == 1);
      } else if id == AVL_MOVEMENT && v.Int? {
        movement := Some(v.n == 1);
      } else if Some(id) == odoId && v.Int? {
        if -BIGINT_LIMIT <= v.n < BIGINT_LIMIT { odometer := Some(v.n); }
      } else {
        var entry := Find(dict, id);
        var key := IoKey(id);
        if entry.Some? && !ForcedFuelKey(id, entry) && id !in ambiguous { key := entry.value.name; }
        if key in attrs || key in inherited { key := IoKey(id); }
        attrs := attrs[key := Stored(dict, io[i])];
      }
    }
    assert io[..|io|] == io;
    c := Columns(ignition, movement, odometer, attrs);
  }

  // ----- order does not matter and nothing is lost -----

  ghost predicate DistinctIds(io: seq<Element>) {
    forall i, j :: 0 <= i < j < |io| ==> io[i].0 != io[j].0
  }

  /** The key of an element, decided by its id alone. */
  function OwnKey(dict: seq<(AvlId, Entry)>, inherited: set<string>, id: AvlId): string {
    var name := NameOf(dict, id);
    if name.None? || name.value in inherited then IoKey(id) else name.value
  }

  /** The dictionary name of the id is its key. */
  ghost predicate Named(dict: seq<(AvlId, Entry)>, inherited: set<string>, id: AvlId) {
    NameOf(dict, id).Some? && NameOf(dict, id).value !in inherited
  }

  /** `a` goes by its dictionary name, and that is the `io_<id>` key which `b`, for want of a name, goes by. */
  ghost predicate Clash(dict: seq<(AvlId, Entry)>, inherited: set<string>, a: AvlId, b: AvlId) {
    a != b && Named(dict, inherited, a) && NameOf(dict, a) == Some(IoKey(b)) && !Named(dict, inherited, b)
  }

  ghost predicate NoClash(dict: seq<(AvlId, Entry)>, inherited: set<string>) {
    forall a: AvlId, b: AvlId :: !Clash(dict, inherited, a, b)
  }

  /** A dictionary without any name of the form `io_<id>` has no clash. */
  lemma NoIoNamesNoClash(dict: Dict, inherited: set<string>)
    requires forall id: AvlId, i :: 0 <= i < |dict| ==> dict[i].1.name != IoKey(id)
    ensures NoClash(dict, inherited)
  {
    hide IoKey, SaysFuel, Ambiguous;
    forall a: AvlId, b: AvlId ensures !Clash(dict, inherited, a, b) {
      if Clash(dict, inherited, a, b) {
        FindMember(dict, a);
        assert false;
      }
    }
  }

  lemma OwnKeyInjective(dict: Dict, inherited: set<string>, a: AvlId, b: AvlId)
    requires NoClash(dict, inherited) && OwnKey(dict, inherited, a) == OwnKey(dict, inherited, b)
    ensures a == b
  {
    hide IoKey, SaysFuel;
    assert !Clash(dict, inherited, a, b) && !Clash(dict, inherited, b, a);
    if Named(dict, inherited, a) && Named(dict, inherited, b) {
      FindMember(dict, a);
      FindMember(dict, b);
      var i :| 0 <= i < |dict| && dict[i] == (a, Find(dict, a).value);
      var j :| 0 <= j < |dict| && dict[j] == (b, Find(dict, b).value);
      assert i == j;
    } else if !Named(dict, inherited, a) && !Named(dict, inherited, b) {
      IoKeyInjective(a, b);
    }
  }

  /** Every element that is not promoted sits under its own key, and nothing else does. */
  ghost predicate AttrsDescribe(dict: seq<(AvlId, Entry)>, inherited: set<string>, attrs: map<string, Attr>, io: seq<Element>) {
    && (forall e :: e in io && !Promoted(dict, e) ==>
          OwnKey(dict, inherited, e.0) in attrs && attrs[OwnKey(dict, inherited, e.0)] == Stored(dict, e))
    && (forall k :: k in attrs ==> exists e :: e in io && !Promoted(dict, e) && k == OwnKey(dict, inherited, e.0))
  }

  /** The number sent for an id. */
  function Sent(io: seq<Element>, id: AvlId): Option<int> {
    if io == [] then None
    else
      var e := io[|io| - 1];
      if e.0 == id && e.1.Int? then Some(e.1.n) else Sent(io[..|io| - 1], id)
  }

  function Flag(v: Option<int>): Option<bool> {
    match v
    case None => None
    case Some(n) => Some(n == 1)
  }

  function OdometerOf(dict: seq<(AvlId, Entry)>, io: seq<Element>): Option<int> {
    match OdometerId(dict)
    case None => None
    case Some(id) =>
      if id == AVL_IGNITION || id == AVL_MOVEMENT then None
      else
        match Sent(io, id)
        case None => None
        case Some(n) => if -BIGINT_LIMIT <= n < BIGINT_LIMIT then Some(n) else None
  }

  /** A promoted column holds the value of its element, if there is one. */
  ghost predicate ColumnsDescribe(dict: seq<(AvlId, Entry)>, c: Columns, io: seq<Element>) {
    && c.ignition == Flag(Sent(io, AVL_IGNITION))
    && c.movement == Flag(Sent(io, AVL_MOVEMENT))
    && c.odometer == OdometerOf(dict, io)
  }

  /** An element whose id is new takes its own key, whatever is already there. */
  lemma OwnKeyIsFree(dict: Dict, inherited: set<string>, attrs: map<string, Attr>, io: seq<Element>, id: AvlId)
    requires NoClash(dict, inherited) && AttrsDescribe(dict, inherited, attrs, io)
    requires forall e :: e in io ==> e.0 != id
    ensures OwnKey(dict, inherited, id) !in attrs
    ensures KeyFor(dict, inherited, attrs, id) == OwnKey(dict, inherited, id)
  {
    hide NameOf, IoKey, Stored, Promoted;
    if OwnKey(dict, inherited, id) in attrs {
      var e :| e in io && !Promoted(dict, e) && OwnKey(dict, inherited, id) == OwnKey(dict, inherited, e.0);
      OwnKeyInjective(dict, inherited, id, e.0);
      assert false;
    }
  }

  lemma LastElement(io: seq<Element>)
    requires io != [] && DistinctIds(io)
    ensures var n := |io| - 1;
      && DistinctIds(io[..n])
      && (forall e :: e in io[..n] ==> e.0 != io[n].0)
      && (forall e :: e in io <==> e in io[..n] || e == io[n])
  {
    var n := |io| - 1;
    forall e | e in io[..n] ensures e.0 != io[n].0 {
      var i :| 0 <= i < n && io[..n][i] == e;
      assert io[i] == e;
    }
    assert io == io[..n] + [io[n]];
  }

  lemma {:induction false} AttrsDescribed(dict: Dict, inherited: set<string>, io: seq<Element>)
    requires NoClash(dict, inherited) && DistinctIds(io)
    ensures AttrsDescribe(dict, inherited, AbsorbAll(dict, inherited, io).attrs, io)
  {
    if io != [] {
      hide AttrsDescribe, Absorb, NoClash;
      LastElement(io);
      AttrsDescribed(dict, inherited, io[..|io| - 1]);
      AttrsStep(dict, inherited, AbsorbAll(dict, inherited, io[..|io| - 1]), io);
    }
  }

  lemma AttrsStep(dict: Dict, inherited: set<string>, c: Columns, io: seq<Element>)
    requires io != [] && NoClash(dict, inherited) && DistinctIds(io)
    requires AttrsDescribe(dict, inherited, c.attrs, io[..|io| - 1])
    ensures AttrsDescribe(dict, inherited, Absorb(dict, inherited, c, io[|io| - 1]).attrs, io)
  {
    var front, e := io[..|io| - 1], io[|io| - 1];
    LastElement(io);
    if !Promoted(dict, e) {
      OwnKeyIsFree(dict, inherited, c.attrs, front, e.0);
    }
    hide OwnKey, KeyFor, Stored, OdometerId, NoClash;
  }

  lemma {:induction false} ColumnsDescribed(dict: Dict, inherited: set<string>, io: seq<Element>)
    requires DistinctIds(io)
    ensures ColumnsDescribe(dict, AbsorbAll(dict, inherited, io), io)
  {
    if io != [] {
      hide KeyFor, Stored, OdometerId;
      LastElement(io);
      ColumnsDescribed(dict, inherited, io[..|io| - 1]);
      SentMembers(io[..|io| - 1], io[|io| - 1].0);
    }
  }

  /** With distinct ids, what was sent for an id is a matter of membership. */
  lemma {:induction false} SentMembers(io: seq<Element>, id: AvlId)
    requires DistinctIds(io)
    ensures forall n :: Sent(io, id) == Some(n) <==> (id, Int(n)) in io
  {
    if io != [] {
      LastElement(io);
      SentMembers(io[..|io| - 1], id);
    }
  }

  lemma SentAgrees(io: seq<Element>, io': seq<Element>, id: AvlId)
    requires DistinctIds(io) && DistinctIds(io') && forall e :: e in io <==> e in io'
    ensures Sent(io, id) == Sent(io', id)
  {
    SentMembers(io, id);
    SentMembers(io', id);
    if Sent(io, id).Some? {
      assert (id, Int(Sent(io, id).value)) in io';
    } else if Sent(io', id).Some? {
      assert (id, Int(Sent(io', id).value)) in io;
    }
  }

  lemma AttrsAgree(dict: Dict, inherited: set<string>,
      a: map<string, Attr>, b: map<string, Attr>, io: seq<Element>, io': seq<Element>)
    requires forall e :: e in io <==> e in io'
    requires AttrsDescribe(dict, inherited, a, io) && AttrsDescribe(dict, inherited, b, io')
    ensures a == b
  {
    hide OwnKey, Stored, Promoted;
  }

  /** The order in which a device sends its elements decides nothing. */
  lemma OrderIsIrrelevant(dict: Dict, inherited: set<string>, io: seq<Element>, io': seq<Element>)
    requires NoClash(dict, inherited) && DistinctIds(io) && multiset(io) == multiset(io')
    ensures AbsorbAll(dict, inherited, io) == AbsorbAll(dict, inherited, io')
  {
    hide NoClash, Promoted, OwnKey;
    assert forall e :: e in io <==> e in multiset(io);
    assert forall e :: e in io' <==> e in multiset(io');
    PermutedIdsDistinct(io, io');
    AttrsDescribed(dict, inherited, io);
    AttrsDescribed(dict, inherited, io');
    ColumnsDescribed(dict, inherited, io);
    ColumnsDescribed(dict, inherited, io');
    AttrsAgree(dict, inherited, AbsorbAll(dict, inherited, io).attrs, AbsorbAll(dict, inherited, io').attrs, io, io');
    hide AttrsDescribe, DistinctIds;
    SentAgrees(io, io', AVL_IGNITION);
    SentAgrees(io, io', AVL_MOVEMENT);
    if OdometerId(dict).Some? {
      SentAgrees(io, io', OdometerId(dict).value);
    }
  }

  lemma PermutedIdsDistinct(io: seq<Element>, io': seq<Element>)
    requires DistinctIds(io) && multiset(io) == multiset(io')
    ensures DistinctIds(io')
  {
    forall i, j | 0 <= i < j < |io'| ensures io'[i].0 != io'[j].0 {
      if io'[i].0 == io'[j].0 {
        assert io'[i] in multiset(io) && io'[j] in multiset(io);
        if io'[i] == io'[j] {
          TwiceInMultiset(io', i, j);
          OnceInMultiset(io, io'[i]);
        }
        assert false;
      }
    }
  }

  lemma TwiceInMultiset(s: seq<Element>, i: nat, j: nat)
    requires i < j < |s| && s[i] == s[j]
    ensures multiset(s)[s[i]] >= 2
  {
    assert s == s[..j] + [s[j]] + s[j + 1..];
    assert s[i] in s[..j] by { assert s[..j][i] == s[i]; }
    assert multiset(s) == multiset(s[..j]) + multiset{s[j]} + multiset(s[j + 1..]);
  }

  lemma {:induction false} OnceInMultiset(s: seq<Element>, e: Element)
    requires DistinctIds(s)
    ensures multiset(s)[e] <= 1
  {
    if s != [] {
      var n := |s| - 1;
      LastElement(s);
      OnceInMultiset(s[..n], e);
      assert s == s[..n] + [s[n]];
      assert e == s[n] ==> e !in s[..n];
      assert e !in s[..n] ==> multiset(s[..n])[e] == 0;
    }
  }

  /** Every element that is not promoted to a column is found under a key of its own, with its value. */
  lemma NothingIsLost(dict: Dict, inherited: set<string>, io: seq<Element>, i: nat, j: nat)
    requires NoClash(dict, inherited) && DistinctIds(io) && i < |io| && j < |io|
    requires !Promoted(dict, io[i])
    ensures var attrs := AbsorbAll(dict, inherited, io).attrs;
      var key := OwnKey(dict, inherited, io[i].0);
      && key in attrs && attrs[key] == Stored(dict, io[i])
      && (i != j ==> OwnKey(dict, inherited, io[j].0) != key)
  {
    hide OwnKey, Stored, Promoted, NoClash;
    AttrsDescribed(dict, inherited, io);
    if i != j && OwnKey(dict, inherited, io[j].0) == OwnKey(dict, inherited, io[i].0) {
      OwnKeyInjective(dict, inherited, io[i].0, io[j].0);
      assert false;
    }
  }

  /** The name of row `k` may serve as a key: no other row has it, it is not forced aside, and no object answers to it. */
  ghost predicate GoesByName(dict: seq<(AvlId, Entry)>, inherited: set<string>, k: nat)
    requires k < |dict|
  {
    && (forall j :: 0 <= j < |dict| && j != k ==> dict[j].1.name != dict[k].1.name)
    && !(dict[k].0 in {48, 84, 89} && SaysFuel(dict[k].1.name))
    && dict[k].1.name !in inherited
  }

  /** The attribute holds the value as read: bytes as hex, a number as such if it is a safe integer and as text if not. */
  ghost predicate Holds(a: Attr, v: Value, read: int -> int) {
    match v
    case Bytes(b) => a == Hex(b)
    case Int(n) => a == if -MAX_SAFE <= read(n) <= MAX_SAFE then Number(read(n)) else Text(read(n))
  }

  lemma {:induction false} FindAt(dict: Dict, k: nat)
    requires k < |dict|
    ensures Find(dict, dict[k].0) == Some(dict[k].1)
  {
    if k > 0 {
      assert dict[0].0 != dict[k].0;
      FindAt(dict[1..], k - 1);
    }
  }

  lemma {:induction false} FindNone(dict: seq<(AvlId, Entry)>, id: AvlId)
    requires forall k :: 0 <= k < |dict| ==> dict[k].0 != id
    ensures Find(dict, id) == None
  {
    if dict != [] {
      FindNone(dict[1..], id);
    }
  }

  /** An element that the dictionary lists is stored under its name if that may be used and under `io_<id>` if not,
      and as its row reads it. */
  lemma ListedElementStored(dict: Dict, inherited: set<string>, io: seq<Element>, i: nat, k: nat)
    requires NoClash(dict, inherited) && DistinctIds(io) && i < |io| && !Promoted(dict, io[i])
    requires k < |dict| && dict[k].0 == io[i].0
    ensures var attrs := AbsorbAll(dict, inherited, io).attrs;
      var key := if GoesByName(dict, inherited, k) then dict[k].1.name else IoKey(io[i].0);
      key in attrs && Holds(attrs[key], io[i].1, dict[k].1.read)
  {
    hide NoClash, Promoted, AbsorbAll, IoKey, SaysFuel;
    NothingIsLost(dict, inherited, io, i, i);
    FindAt(dict, k);
  }

  /** One that it does not list is stored under `io_<id>` as it was sent. */
  lemma UnlistedElementStored(dict: Dict, inherited: set<string>, io: seq<Element>, i: nat)
    requires NoClash(dict, inherited) && DistinctIds(io) && i < |io| && !Promoted(dict, io[i])
    requires forall k :: 0 <= k < |dict| ==> dict[k].0 != io[i].0
    ensures var attrs := AbsorbAll(dict, inherited, io).attrs;
      IoKey(io[i].0) in attrs && Holds(attrs[IoKey(io[i].0)], io[i].1, n => n)
  {
    hide NoClash, Promoted, AbsorbAll, IoKey, SaysFuel;
    NothingIsLost(dict, inherited, io, i, i);
    FindNone(dict, io[i].0);
  }

  /** The odometer column is that of the first row of that name. */
  lemma {:induction false} OdometerIsFirstSoNamed(dict: seq<(AvlId, Entry)>)
    ensures OdometerId(dict).Some? ==>
      exists k :: 0 <= k < |dict| && dict[k].0 == OdometerId(dict).value && dict[k].1.name == "Total Odometer"
                  && forall j :: 0 <= j < k ==> dict[j].1.name != "Total Odometer"
    ensures OdometerId(dict).None? ==> forall k :: 0 <= k < |dict| ==> dict[k].1.name != "Total Odometer"
  {
    if dict != [] && dict[0].1.name != "Total Odometer" {
      OdometerIsFirstSoNamed(dict[1..]);
      if OdometerId(dict).Some? {
        var k :| 0 <= k < |dict[1..]| && dict[1..][k].0 == OdometerId(dict).value && dict[1..][k].1.name == "Total Odometer"
                 && forall j :: 0 <= j < k ==> dict[1..][j].1.name != "Total Odometer";
        assert dict[k + 1] == dict[1..][k];
        assert forall j :: 0 < j < k + 1 ==> dict[j] == dict[1..][j - 1];
      }
    }
  }

  /** Two clashing ids: in one order the second element overwrites the first, in the other both are kept. */
  lemma ClashLosesAnElement(dict: Dict, inherited: set<string>, a: AvlId, b: AvlId, x: seq<int>, y: seq<int>)
    requires Clash(dict, inherited, a, b)
    ensures AbsorbAll(dict, inherited, [(a, Bytes(x)), (b, Bytes(y))]).attrs == map[IoKey(b) := Hex(y)]
    ensures AbsorbAll(dict, inherited, [(b, Bytes(y)), (a, Bytes(x))]).attrs == map[IoKey(b) := Hex(y), IoKey(a) := Hex(x)]
  {
    hide IoKey, NameOf, OdometerId, Find;
    var e, f: Element := (a, Bytes(x)), (b, Bytes(y));
    if IoKey(a) == IoKey(b) {
      IoKeyInjective(a, b);
    }
    var first, second := AbsorbAll(dict, inherited, [e]), AbsorbAll(dict, inherited, [f]);
    var none: seq<Element> := [];
    assert [e][..0] == none && [f][..0] == none && AbsorbAll(dict, inherited, none) == NoColumns;
    assert first == Absorb(dict, inherited, NoColumns, e) && second == Absorb(dict, inherited, NoColumns, f);
    assert Stored(dict, e) == Hex(x) && Stored(dict, f) == Hex(y);
    assert KeyFor(dict, inherited, map[], a) == IoKey(b) && KeyFor(dict, inherited, map[], b) == IoKey(b);
    assert first.attrs == map[IoKey(b) := Hex(x)];
    assert second.attrs == map[IoKey(b) := Hex(y)];
    assert [e, f][..1] == [e] && [f, e][..1] == [f];
    assert KeyFor(dict, inherited, first.attrs, b) == IoKey(b);
    assert KeyFor(dict, inherited, second.attrs, a) == IoKey(a);
  }

  /** Every order of the elements of every message gives the same columns and attributes. */
  ghost predicate OrderFree(dict: seq<(AvlId, Entry)>, inherited: set<string>) {
    forall io, io' :: DistinctIds(io) && multiset(io) == multiset(io') ==>
      AbsorbAll(dict, inherited, io) == AbsorbAll(dict, inherited, io')
  }

  /** The exact condition on the dictionary: order is irrelevant if and only if no two ids clash. */
  lemma OrderIsIrrelevantIff(dict: Dict, inherited: set<string>)
    ensures OrderFree(dict, inherited) <==> NoClash(dict, inherited)
  {
    hide AbsorbAll, DistinctIds;
    if NoClash(dict, inherited) {
      forall io, io' | DistinctIds(io) && multiset(io) == multiset(io')
        ensures AbsorbAll(dict, inherited, io) == AbsorbAll(dict, inherited, io')
      {
        OrderIsIrrelevant(dict, inherited, io, io');
      }
    } else {
      var a: AvlId, b: AvlId :| Clash(dict, inherited, a, b);
      ClashDependsOnOrder(dict, inherited, a, b);
    }
  }

  lemma ClashDependsOnOrder(dict: Dict, inherited: set<string>, a: AvlId, b: AvlId)
    requires Clash(dict, inherited, a, b)
    ensures !OrderFree(dict, inherited)
  {
    var e, f: Element := (a, Bytes([])), (b, Bytes([]));
    ClashLosesAnElement(dict, inherited, a, b, [], []);
    hide AbsorbAll, IoKey, Clash;
    if IoKey(a) == IoKey(b) {
      IoKeyInjective(a, b);
    }
    assert IoKey(a) in AbsorbAll(dict, inherited, [f, e]).attrs && IoKey(a) !in AbsorbAll(dict, inherited, [e, f]).attrs;
    assert multiset([e, f]) == multiset([f, e]) && DistinctIds([e, f]);
  }

  const CLASHING: Dict := [(7, Entry("io_5", v => v))]

  lemma ClashingRows()
    ensures Find(CLASHING, 7) == Some(CLASHING[0].1) && Find(CLASHING, 5) == None && OdometerId(CLASHING) == None
  {
    assert CLASHING[1..] == [] && CLASHING[0].1.name != "Total Odometer" by {
      assert CLASHING[0].1.name[0] == 'i';
    }
  }

  lemma ClashingValues()
    ensures Stored(CLASHING, (7, Int(1))) == Number(1) && Stored(CLASHING, (5, Int(2))) == Number(2)
  {
    ClashingRows();
    hide Find;
    assert CLASHING[0].1.read(1) == 1;
  }

  lemma ClashingKeys()
    ensures KeyFor(CLASHING, {}, map[], 7) == "io_5" && KeyFor(CLASHING, {}, map[], 5) == "io_5"
    ensures forall attrs :: "io_5" in attrs ==>
              KeyFor(CLASHING, {}, attrs, 7) == "io_7" && KeyFor(CLASHING, {}, attrs, 5) == "io_5"
  {
    ClashingRows();
    hide Find, SaysFuel;
    assert Decimal(5) == "5" && Decimal(7) == "7" && IoKey(5) == "io_5" && IoKey(7) == "io_7";
    hide IoKey, Decimal;
    assert NameOf(CLASHING, 7) == Some("io_5") && NameOf(CLASHING, 5) == None;
    hide NameOf;
  }

  /** The dictionary hypothesis is needed: a row named like the key of another id loses an element in
      one order and not in the other. */
  lemma IoNamesLoseElements()
    ensures AbsorbAll(CLASHING, {}, [(7, Int(1)), (5, Int(2))]).attrs == map["io_5" := Number(2)]
    ensures AbsorbAll(CLASHING, {}, [(5, Int(2)), (7, Int(1))]).attrs == map["io_5" := Number(2), "io_7" := Number(1)]
  {
    ClashingRows();
    ClashingValues();
    ClashingKeys();
    hide KeyFor, Stored, OdometerId, Find;
    var a, b: Element := (7, Int(1)), (5, Int(2));
    assert [a, b][..1] == [a] && [b, a][..1] == [b];
    assert AbsorbAll(CLASHING, {}, [a]).attrs == map["io_5" := Number(1)];
    assert AbsorbAll(CLASHING, {}, [b]).attrs == map["io_5" := Number(2)];
  }
}
