/** Wire adapters: rewriting JSON at the edge so that a peer's deviations survive the strict model. */
module Adapters {
  datatype Json =
    | Null
    | Bool(b: bool)
    | Num(n: real)
    | Str(s: string)
    | Arr(items: seq<Json>)
    | Obj(fields: map<string, Json>)

  type Fields = map<string, Json>

  const PRESERVED_PREFIX: string := "x-openadr-preserved-"
  const DESCRIPTORS: string := "reportDescriptors"
  const FREQUENCY: string := "frequency"
  const REQUIRED: string := "required"

  function PreservedKey(field: string): string {
    PRESERVED_PREFIX + field
  }

  datatype Direction = Inbound | Outbound

  // ------------------------------------------------------------------------
  // One report descriptor
  // ------------------------------------------------------------------------

  /** Moves the value at one key to another, over whatever was there. */
  function Move(d: Fields, from: string, to: string): Fields {
    if from in d then (d - {from})[to := d[from]] else d
  }

  /** A string frequency and any required flag are parked under preserved keys. */
  function Park(d: Fields): Fields {
    var e := if FREQUENCY in d && d[FREQUENCY].Str? then Move(d, FREQUENCY, PreservedKey(FREQUENCY)) else d;
    Move(e, REQUIRED, PreservedKey(REQUIRED))
  }

  /** Whatever was parked is put back. */
  function PutBack(d: Fields): Fields {
    Move(Move(d, PreservedKey(FREQUENCY), FREQUENCY), PreservedKey(REQUIRED), REQUIRED)
  }

  function Descriptor(d: Fields, dir: Direction): Fields {
    match dir
    case Inbound => Park(d)
    case Outbound => PutBack(d)
  }

  // ------------------------------------------------------------------------
  // The walk
  // ------------------------------------------------------------------------

  /** Where a value stands: in a list of report descriptors, as one of them, or anywhere else. */
  datatype Place = Elsewhere | DescriptorList | InDescriptorList

  function PlaceOfItem(p: Place): Place {
    if p.DescriptorList? then InDescriptorList else Elsewhere
  }

  function PlaceOfField(key: string): Place {
    if key == DESCRIPTORS then DescriptorList else Elsewhere
  }

  /** The value a walk sees at a place: a descriptor has been rewritten before it is walked. */
  function Seen(v: Json, dir: Direction, p: Place): Json {
    match v
    case Obj(fields) => if p.InDescriptorList? then Obj(Descriptor(fields, dir)) else v
    case Arr(items) => if p.DescriptorList? then Arr(SeenItems(items, dir)) else v
    case _ => v
  }

  function SeenItems(items: seq<Json>, dir: Direction): (r: seq<Json>)
    ensures |r| == |items|
  {
    seq(|items|, i requires 0 <= i < |items| =>
      match items[i] case Obj(fields) => Obj(Descriptor(fields, dir)) case _ => items[i])
  }

  /** Every report descriptor rewritten, however deep. */
  function Rewrite(v: Json, dir: Direction, p: Place): Json
    decreases v
  {
    match v
    case Arr(items) =>
      Arr(seq(|items|, i requires 0 <= i < |items| => Rewrite(items[i], dir, PlaceOfItem(p))))
    case Obj(fields) =>
      var walked := map k | k in fields :: k := Rewrite(fields[k], dir, PlaceOfField(k));
      Obj(if p.InDescriptorList? then Descriptor(walked, dir) else walked)
    case _ => v
  }

  function RewriteFields(d: Fields, dir: Direction): (r: Fields)
    ensures r.Keys == d.Keys
  {
    map k | k in d :: k := Rewrite(d[k], dir, PlaceOfField(k))
  }

  /** A rewritten descriptor holds values of the descriptor it was. */
  lemma Origin(d: Fields, dir: Direction, k: string) returns (from: string)
    requires k in Descriptor(d, dir)
    ensures from in d && Descriptor(d, dir)[k] == d[from]
  {
    var parked, required := PreservedKey(FREQUENCY), PreservedKey(REQUIRED);
    from :| from in d && Descriptor(d, dir)[k] == d[from];
  }

  /** A descriptor may be rewritten before or after what it holds is. */
  lemma MoveCommutes(d: Fields, from: string, to: string, within: Direction)
    requires PlaceOfField(from) == PlaceOfField(to)
    ensures RewriteFields(Move(d, from, to), within) == Move(RewriteFields(d, within), from, to)
  {}

  lemma DescriptorCommutes(d: Fields, dir: Direction, within: Direction)
    ensures RewriteFields(Descriptor(d, dir), within) == Descriptor(RewriteFields(d, within), dir)
  {
    var parked, required := PreservedKey(FREQUENCY), PreservedKey(REQUIRED);
    match dir
    case Inbound =>
      MoveCommutes(d, FREQUENCY, parked, within);
      MoveCommutes(d, REQUIRED, required, within);
      MoveCommutes(Move(d, FREQUENCY, parked), REQUIRED, required, within);
    case Outbound =>
      MoveCommutes(d, parked, FREQUENCY, within);
      MoveCommutes(Move(d, parked, FREQUENCY), required, REQUIRED, within);
  }

  lemma SeenFields(o: Json, dir: Direction, p: Place)
    requires o.Obj?
    ensures RewriteFields(Seen(o, dir, p).fields, dir) == Rewrite(o, dir, p).fields
  {
    if p.InDescriptorList? {
      DescriptorCommutes(o.fields, dir, dir);
    }
  }

  /** The report descriptors of one object, rewritten in place. */
  method RewriteDescriptors(items: seq<Json>, dir: Direction) returns (r: seq<Json>)
    ensures r == SeenItems(items, dir)
  {
    r := [];
    for i := 0 to |items|
      invariant r == SeenItems(items, dir)[..i]
    {
      var d := if items[i].Obj? then Obj(Descriptor(items[i].fields, dir)) else items[i];
      r := r + [d];
    }
  }

  method WalkItems(items: seq<Json>, dir: Direction, ghost o: Json, ghost p: Place) returns (walked: seq<Json>)
    requires o.Arr? && Arr(items) == Seen(o, dir, p)
    ensures Arr(walked) == Rewrite(o, dir, p)
    decreases o, 0
  {
    walked := [];
    for i := 0 to |items|
      invariant |walked| == i && forall j :: 0 <= j < i ==> walked[j] == Rewrite(o, dir, p).items[j]
    {
      var item := Walk(items[i], dir, o.items[i], PlaceOfItem(p));
      walked := walked + [item];
    }
  }

  /** The fields of an object once the descriptors directly under it have been rewritten. */
  method PrepareFields(fields: Fields, dir: Direction) returns (m: Fields)
    ensures m.Keys == fields.Keys
    ensures forall k :: k in fields ==> m[k] == Seen(fields[k], dir, PlaceOfField(k))
  {
    m := fields;
    if DESCRIPTORS in m && m[DESCRIPTORS].Arr? {
      var descriptors := RewriteDescriptors(m[DESCRIPTORS].items, dir);
      m := m[DESCRIPTORS := Arr(descriptors)];
    }
  }

  /** The value is one of an object's. */
  ghost predicate IsIn(v: Json, o: Json)
    requires o.Obj?
  {
    exists from :: from in o.fields && v == o.fields[from]
  }

  method WalkFields(fields: Fields, dir: Direction, ghost o: Json, ghost p: Place) returns (m: Fields)
    requires o.Obj? && forall k :: k in fields ==> IsIn(fields[k], o)
    ensures m == RewriteFields(fields, dir)
    decreases o, 0
  {
    m := PrepareFields(fields, dir);
    ghost var prepared, walked := m, RewriteFields(fields, dir);
    var keys := m.Keys;
    while keys != {}
      invariant keys <= m.Keys == fields.Keys
      invariant forall k :: k in keys ==> m[k] == prepared[k]
      invariant forall k :: k in m && k !in keys ==> m[k] == walked[k]
    {
      var k :| k in keys;
      assert IsIn(fields[k], o);
      var child := Walk(m[k], dir, fields[k], PlaceOfField(k));
      m := m[k := child];
      keys := keys - {k};
    }
  }

  /**
   Walks a value, rewriting the descriptors directly under each object before walking what is in it,
   those descriptors included. `o` is what stood here before any of that.
   */
  method Walk(v: Json, dir: Direction, ghost o: Json, ghost p: Place) returns (w: Json)
    requires v == Seen(o, dir, p)
    ensures w == Rewrite(o, dir, p)
    decreases o, 1
  {
    match v
    case Arr(items) =>
      var walked := WalkItems(items, dir, o, p);
      w := Arr(walked);
    case Obj(fields) =>
      forall k | k in fields ensures IsIn(fields[k], o) {
        if p.InDescriptorList? {
          var from := Origin(o.fields, dir, k);
        } else {
          assert k in o.fields && fields[k] == o.fields[k];
        }
      }
      var walked := WalkFields(fields, dir, o, p);
      SeenFields(o, dir, p);
      w := Obj(walked);
    case _ =>
      w := v;
  }

  // ------------------------------------------------------------------------
  // There and back
  // ------------------------------------------------------------------------

  function Opposite(dir: Direction): Direction {
    match dir case Inbound => Outbound case Outbound => Inbound
  }

  /**
   A descriptor that the rewrite in a direction loses nothing of. Arriving: nothing is parked in it
   already. Leaving: only a string is parked as its frequency and none is left in place, a frequency
   is not both parked and in place, and no required flag is in place.
   */
  predicate Tidy(d: Fields, dir: Direction) {
    var parked, required := PreservedKey(FREQUENCY), PreservedKey(REQUIRED);
    match dir
    case Inbound => parked !in d && required !in d
    case Outbound =>
      && REQUIRED !in d
      && (parked in d ==> FREQUENCY !in d && d[parked].Str?)
      && (FREQUENCY in d ==> !d[FREQUENCY].Str?)
  }

  /** Every descriptor in a value is tidy, at any depth. */
  predicate TidyAll(v: Json, dir: Direction, p: Place)
    decreases v
  {
    match v
    case Arr(items) => forall i :: 0 <= i < |items| ==> TidyAll(items[i], dir, PlaceOfItem(p))
    case Obj(fields) =>
      && (p.InDescriptorList? ==> Tidy(fields, dir))
      && forall k :: k in fields ==> TidyAll(fields[k], dir, PlaceOfField(k))
    case _ => true
  }

  function ThereAndBack(v: Json, dir: Direction, p: Place): Json {
    Rewrite(Rewrite(v, dir, p), Opposite(dir), p)
  }

  lemma TidyReturns(d: Fields, dir: Direction)
    requires Tidy(d, dir)
    ensures Descriptor(Descriptor(d, dir), Opposite(dir)) == d
  {}

  lemma ReturnedIsTidy(d: Fields, dir: Direction)
    ensures Tidy(Descriptor(Descriptor(d, dir), Opposite(dir)), dir)
  {}

  function BothFields(d: Fields, dir: Direction): (r: Fields)
    ensures r.Keys == d.Keys
  {
    map k | k in d :: k := ThereAndBack(d[k], dir, PlaceOfField(k))
  }

  lemma ThereAndBackFields(d: Fields, dir: Direction, p: Place)
    ensures ThereAndBack(Obj(d), dir, p) ==
      Obj(if p.InDescriptorList? then Descriptor(Descriptor(BothFields(d, dir), dir), Opposite(dir))
        else BothFields(d, dir))
  {
    var once := RewriteFields(d, dir);
    assert RewriteFields(once, Opposite(dir)) == BothFields(d, dir);
    if p.InDescriptorList? {
      assert Rewrite(Obj(d), dir, p) == Obj(Descriptor(once, dir));
      DescriptorCommutes(once, dir, Opposite(dir));
      var inner := Descriptor(once, dir);
      assert Rewrite(Obj(inner), Opposite(dir), p)
        == Obj(Descriptor(RewriteFields(inner, Opposite(dir)), Opposite(dir)));
    } else {
      assert Rewrite(Obj(d), dir, p) == Obj(once);
      assert Rewrite(Obj(once), Opposite(dir), p) == Obj(RewriteFields(once, Opposite(dir)));
    }
  }

  /** Rewriting one way and back returns exactly the values whose every descriptor is tidy. */
  lemma {:induction false} ReturnsIff(v: Json, dir: Direction, p: Place)
    ensures ThereAndBack(v, dir, p) == v <==> TidyAll(v, dir, p)
    decreases v
  {
    match v
    case Arr(items) =>
      forall i | 0 <= i < |items|
        ensures ThereAndBack(items[i], dir, PlaceOfItem(p)) == items[i] <==> TidyAll(items[i], dir, PlaceOfItem(p))
      {
        ReturnsIff(items[i], dir, PlaceOfItem(p));
      }
      ItemsReturn(items, dir, p);
    case Obj(fields) =>
      forall k | k in fields
        ensures ThereAndBack(fields[k], dir, PlaceOfField(k)) == fields[k] <==> TidyAll(fields[k], dir, PlaceOfField(k))
      {
        ReturnsIff(fields[k], dir, PlaceOfField(k));
      }
      FieldsReturn(fields, dir, p);
    case _ =>
  }

  lemma ItemsReturn(items: seq<Json>, dir: Direction, p: Place)
    ensures ThereAndBack(Arr(items), dir, p) == Arr(items) <==>
      forall i :: 0 <= i < |items| ==> ThereAndBack(items[i], dir, PlaceOfItem(p)) == items[i]
  {
    var back := ThereAndBack(Arr(items), dir, p);
    assert back.Arr? && |back.items| == |items|;
    assert forall i :: 0 <= i < |items| ==> back.items[i] == ThereAndBack(items[i], dir, PlaceOfItem(p));
    if forall i :: 0 <= i < |items| ==> ThereAndBack(items[i], dir, PlaceOfItem(p)) == items[i] {
      assert back.items == items;
    }
  }

  /** Whether a descriptor is tidy depends on what is in it only as far as its keys and which values are strings. */
  lemma TidyOfBoth(d: Fields, dir: Direction)
    ensures Tidy(BothFields(d, dir), dir) <==> Tidy(d, dir)
  {
    var both := BothFields(d, dir);
    assert forall k :: k in d ==> (both[k].Str? <==> d[k].Str?);
  }

  lemma FieldsReturn(d: Fields, dir: Direction, p: Place)
    ensures ThereAndBack(Obj(d), dir, p) == Obj(d) <==>
      (p.InDescriptorList? ==> Tidy(d, dir)) && forall k :: k in d ==> ThereAndBack(d[k], dir, PlaceOfField(k)) == d[k]
  {
    ThereAndBackFields(d, dir, p);
    var both := BothFields(d, dir);
    assert (forall k :: k in d ==> ThereAndBack(d[k], dir, PlaceOfField(k)) == d[k]) <==> both == d;
    if p.InDescriptorList? {
      TidyOfBoth(d, dir);
      ReturnedIsTidy(both, dir);
      if Tidy(both, dir) {
        TidyReturns(both, dir);
      }
    }
  }

  method FluviusInbound(body: Json) returns (r: Json)
    ensures r == Rewrite(body, Inbound, Elsewhere)
    ensures Rewrite(r, Outbound, Elsewhere) == body <==> TidyAll(body, Inbound, Elsewhere)
  {
    r := Walk(body, Inbound, body, Elsewhere);
    ReturnsIff(body, Inbound, Elsewhere);
  }

  method FluviusOutbound(body: Json) returns (r: Json)
    ensures r == Rewrite(body, Outbound, Elsewhere)
    ensures Rewrite(r, Inbound, Elsewhere) == body <==> TidyAll(body, Outbound, Elsewhere)
  {
    r := Walk(body, Outbound, body, Elsewhere);
    ReturnsIff(body, Outbound, Elsewhere);
  }

  // ------------------------------------------------------------------------
  // Chains
  // ------------------------------------------------------------------------

  /** Any rewrite and the rewrite the other way. */
  datatype Adapter = Adapter(inbound: Json -> Json, outbound: Json -> Json)

  /** Out through the adapters in order. */
  function Departed(adapters: seq<Adapter>, v: Json): Json {
    if adapters == [] then v
    else adapters[|adapters| - 1].outbound(Departed(adapters[..|adapters| - 1], v))
  }

  /** In through the adapters, last one first. */
  function Arrived(adapters: seq<Adapter>, v: Json): Json {
    if adapters == [] then v
    else Arrived(adapters[..|adapters| - 1], adapters[|adapters| - 1].inbound(v))
  }

  class AdapterChain {
    var adapters: seq<Adapter>

    constructor ()
      ensures adapters == []
    {
      adapters := [];
    }

    method Add(adapter: Adapter)
      modifies this
      ensures adapters == old(adapters) + [adapter]
    {
      adapters := adapters + [adapter];
    }

    method ApplyInbound(body: Json) returns (r: Json)
      ensures r == Arrived(adapters, body)
    {
      r := body;
      var i := |adapters|;
      assert adapters[..i] == adapters;
      while i > 0
        invariant 0 <= i <= |adapters|
        invariant Arrived(adapters[..i], r) == Arrived(adapters, body)
      {
        i := i - 1;
        assert adapters[..i + 1][..i] == adapters[..i];
        r := adapters[i].inbound(r);
      }
    }

    method ApplyOutbound(body: Json) returns (r: Json)
      ensures r == Departed(adapters, body)
    {
      r := body;
      for i := 0 to |adapters|
        invariant r == Departed(adapters[..i], body)
      {
        assert adapters[..i + 1][..i] == adapters[..i];
        r := adapters[i].outbound(r);
      }
      assert adapters[..|adapters|] == adapters;
    }
  }

  /** Each adapter takes back what it did to the body as it reached that adapter on the way out. */
  ghost predicate EachUndoesOut(adapters: seq<Adapter>, v: Json) {
    forall i :: 0 <= i < |adapters| ==>
      adapters[i].inbound(adapters[i].outbound(Departed(adapters[..i], v))) == Departed(adapters[..i], v)
  }

  lemma FirstOnesUndo(adapters: seq<Adapter>, n: nat, v: Json)
    requires n <= |adapters| && EachUndoesOut(adapters, v)
    ensures EachUndoesOut(adapters[..n], v)
  {
    forall i | 0 <= i < n
      ensures adapters[..n][i].inbound(adapters[..n][i].outbound(Departed(adapters[..n][..i], v)))
        == Departed(adapters[..n][..i], v)
    {
      assert adapters[..n][..i] == adapters[..i];
    }
  }

  /** A chain whose every adapter undoes itself undoes itself. */
  lemma {:induction false} ChainUndoesItself(adapters: seq<Adapter>, v: Json)
    requires EachUndoesOut(adapters, v)
    ensures Arrived(adapters, Departed(adapters, v)) == v
  {
    if adapters != [] {
      var n := |adapters| - 1;
      FirstOnesUndo(adapters, n, v);
      ChainUndoesItself(adapters[..n], v);
    }
  }

  ghost predicate EachUndoesIn(adapters: seq<Adapter>, v: Json)
    decreases |adapters|
  {
    adapters == [] ||
    (var n := |adapters| - 1;
     adapters[n].outbound(adapters[n].inbound(v)) == v && EachUndoesIn(adapters[..n], adapters[n].inbound(v)))
  }

  lemma {:induction false} ChainRedoesItself(adapters: seq<Adapter>, v: Json)
    requires EachUndoesIn(adapters, v)
    ensures Departed(adapters, Arrived(adapters, v)) == v
    decreases |adapters|
  {
    if adapters != [] {
      var n := |adapters| - 1;
      ChainRedoesItself(adapters[..n], adapters[n].inbound(v));
    }
  }

  /** In through the adapters in the order they were added: not the inverse of going out. */
  function ArrivedInOrder(adapters: seq<Adapter>, v: Json): Json {
    if adapters == [] then v else ArrivedInOrder(adapters[1..], adapters[0].inbound(v))
  }

  /** Puts a letter before a string, and takes it off again. */
  function Tagging(c: char): Adapter {
    Adapter(
      (v: Json) => if v.Str? && v.s != [] && v.s[0] == c then Str(v.s[1..]) else v,
      (v: Json) => if v.Str? then Str([c] + v.s) else v)
  }

  /** Two adapters over the same field already need the reverse order. */
  lemma OrderMatters(s: string)
    ensures var chain := [Tagging('a'), Tagging('b')];
      && Arrived(chain, Departed(chain, Str(s))) == Str(s)
      && ArrivedInOrder(chain, Departed(chain, Str(s))) != Str(s)
  {
    var chain := [Tagging('a'), Tagging('b')];
    assert chain[..1] == [Tagging('a')] && chain[1..] == [Tagging('b')];
    assert Departed(chain, Str(s)) == Str(['b'] + (['a'] + s)) by {
      assert Departed(chain[..1], Str(s)) == Str(['a'] + s);
    }
    var wire := Departed(chain, Str(s));
    assert wire.s[1..] == ['a'] + s && (['a'] + s)[1..] == s;
    assert Arrived(chain, wire) == Arrived(chain[..1], Str(['a'] + s)) == Str(s);
    assert ArrivedInOrder(chain, wire) == ArrivedInOrder(chain[1..], wire) == Str(['a'] + s);
    assert |['a'] + s| != |s|;
  }

  // ------------------------------------------------------------------------
  // In the profile's own keys
  // ------------------------------------------------------------------------

  lemma KeysSpelledOut()
    ensures PreservedKey(FREQUENCY) == "x-openadr-preserved-frequency"
    ensures PreservedKey(REQUIRED) == "x-openadr-preserved-required"
  {}

  /** A descriptor in an object's list stays in its place there. */
  lemma ListedDescriptor(o: Fields, dir: Direction, i: nat)
    requires "reportDescriptors" in o && o["reportDescriptors"].Arr?
    requires i < |o["reportDescriptors"].items| && o["reportDescriptors"].items[i].Obj?
    ensures var w := Rewrite(Obj(o), dir, Elsewhere);
      && w.Obj? && "reportDescriptors" in w.fields && w.fields["reportDescriptors"].Arr?
      && i < |w.fields["reportDescriptors"].items|
      && w.fields["reportDescriptors"].items[i]
        == Obj(Descriptor(RewriteFields(o["reportDescriptors"].items[i].fields, dir), dir))
  {
    var list := o["reportDescriptors"];
    assert Rewrite(Obj(o), dir, Elsewhere).fields["reportDescriptors"] == Rewrite(list, dir, DescriptorList);
    assert Rewrite(list, dir, DescriptorList).items[i] == Rewrite(list.items[i], dir, InDescriptorList);
  }

  const PROFILE_KEYS: set<string> :=
    {"frequency", "required", "x-openadr-preserved-frequency", "x-openadr-preserved-required"}

  /** What a descriptor listed in an arriving object has become. */
  lemma DescriptorArrives(o: Fields, i: nat)
    requires "reportDescriptors" in o && o["reportDescriptors"].Arr?
    requires i < |o["reportDescriptors"].items| && o["reportDescriptors"].items[i].Obj?
    ensures var w := Rewrite(Obj(o), Inbound, Elsewhere);
      && w.Obj? && "reportDescriptors" in w.fields && w.fields["reportDescriptors"].Arr?
      && i < |w.fields["reportDescriptors"].items| && w.fields["reportDescriptors"].items[i].Obj?
      && var d, e := o["reportDescriptors"].items[i].fields, w.fields["reportDescriptors"].items[i].fields;
         // A string frequency is set aside, any other is left.
         && ("frequency" in d && d["frequency"].Str? ==>
               "frequency" !in e && "x-openadr-preserved-frequency" in e
               && e["x-openadr-preserved-frequency"] == d["frequency"])
         && ("frequency" in d && d["frequency"].Num? ==> "frequency" in e && e["frequency"] == d["frequency"])
         // A required flag is set aside whatever it is.
         && ("required" in d ==> "required" !in e && "x-openadr-preserved-required" in e)
         && ("required" in d && d["required"].Bool? ==> e["x-openadr-preserved-required"] == d["required"])
         // Nothing else comes or goes.
         && forall k :: k !in PROFILE_KEYS ==> (k in d <==> k in e)
  {
    KeysSpelledOut();
    ListedDescriptor(o, Inbound, i);
  }

  /** And what one in a departing object has become. */
  lemma DescriptorDeparts(o: Fields, i: nat)
    requires "reportDescriptors" in o && o["reportDescriptors"].Arr?
    requires i < |o["reportDescriptors"].items| && o["reportDescriptors"].items[i].Obj?
    ensures var w := Rewrite(Obj(o), Outbound, Elsewhere);
      && w.Obj? && "reportDescriptors" in w.fields && w.fields["reportDescriptors"].Arr?
      && i < |w.fields["reportDescriptors"].items| && w.fields["reportDescriptors"].items[i].Obj?
      && var d, e := o["reportDescriptors"].items[i].fields, w.fields["reportDescriptors"].items[i].fields;
         && "x-openadr-preserved-frequency" !in e && "x-openadr-preserved-required" !in e
         && ("x-openadr-preserved-frequency" in d ==> "frequency" in e)
         && ("x-openadr-preserved-frequency" in d && d["x-openadr-preserved-frequency"].Str? ==>
               e["frequency"] == d["x-openadr-preserved-frequency"])
         && ("x-openadr-preserved-required" in d ==> "required" in e)
         && ("x-openadr-preserved-required" in d && d["x-openadr-preserved-required"].Bool? ==>
               e["required"] == d["x-openadr-preserved-required"])
         && forall k :: k !in PROFILE_KEYS ==> (k in d <==> k in e)
  {
    KeysSpelledOut();
    ListedDescriptor(o, Outbound, i);
  }
}
