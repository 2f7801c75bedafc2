/** How a filed report's key is written into the exported state and read back. */
module StateKeys {
  import opened Wrappers
  import opened Arithmetic
  import opened Model
  import opened VenSchedule

  predicate Digit(c: char) {
    '0' <= c <= '9'
  }

  predicate AllDigits(s: string) {
    forall i :: 0 <= i < |s| ==> Digit(s[i])
  }

  function DigitOf(n: nat): char
    requires n < 10
  {
    (n + 48) as char
  }

  function ValueOf(c: char): nat
    requires Digit(c)
  {
    c as int - 48
  }

  /** The decimal form of a number. */
  function Decimal(n: nat): (s: string)
    ensures s != [] && AllDigits(s)
  {
    if n < 10 then [DigitOf(n)] else Decimal(n / 10) + [DigitOf(n % 10)]
  }

  function Value(s: string): nat
    requires AllDigits(s)
  {
    if s == [] then 0 else Value(s[..|s| - 1]) * 10 + ValueOf(s[|s| - 1])
  }

  /** `u64::from_str`: one optional plus sign, then digits that do not overflow. */
  function ParseU64(s: string): Option<nat> {
    var digits := if s != [] && s[0] == '+' then s[1..] else s;
    if digits == [] || !AllDigits(digits) || Value(digits) > U64_MAX then None else Some(Value(digits))
  }

  lemma {:induction false} ValueOfDecimal(n: nat)
    ensures Value(Decimal(n)) == n
  {
    if n < 10 {
      assert Decimal(n)[..0] == [];
    } else {
      ValueOfDecimal(n / 10);
      assert Decimal(n)[..|Decimal(n)| - 1] == Decimal(n / 10);
    }
  }

  lemma ParseDecimal(n: nat)
    requires n <= U64_MAX
    ensures ParseU64(Decimal(n)) == Some(n)
  {
    ValueOfDecimal(n);
    assert Digit(Decimal(n)[0]);
  }

  /** Split at the last colon, as one step of `rsplitn(3, ':')`. */
  function LastColon(s: string): Option<nat> {
    if s == [] then None
    else if s[|s| - 1] == ':' then Some(|s| - 1)
    else LastColon(s[..|s| - 1])
  }

  lemma {:induction false} LastColonOf(a: string, b: string)
    requires forall i :: 0 <= i < |b| ==> b[i] != ':'
    ensures LastColon(a + [':'] + b) == Some(|a|)
  {
    var s := a + [':'] + b;
    if b == [] {
      assert s == a + [':'];
    } else {
      assert s[|s| - 1] == b[|b| - 1];
      assert s[..|s| - 1] == a + [':'] + b[..|b| - 1];
      LastColonOf(a, b[..|b| - 1]);
    }
  }

  lemma LastColonInside(s: string)
    ensures LastColon(s).Some? ==> LastColon(s).value < |s|
  {}

  function FormatKey(k: Key): string {
    k.event + [':'] + Decimal(k.descriptor) + [':'] + Decimal(k.sequence)
  }

  /** `restore` drops whatever does not parse. */
  function ParseKey(s: string): Option<Key> {
    var last := LastColon(s);
    if last.None? then None
    else
      LastColonInside(s);
      var sequence, rest := ParseU64(s[last.value + 1..]), s[..last.value];
      var middle := LastColon(rest);
      if sequence.None? || middle.None? then None
      else
        LastColonInside(rest);
        var descriptor, event := ParseU64(rest[middle.value + 1..]), rest[..middle.value];
        if descriptor.None? || !ValidObjectId(event) then None
        else Some(Key(event, descriptor.value, sequence.value))
  }

  predicate Bounded(k: Key) {
    k.descriptor <= U64_MAX && k.sequence <= U64_MAX
  }

  /** Reading back what was written gives the key, whatever the event id holds. */
  lemma KeyRoundTrip(k: Key)
    requires Bounded(k)
    ensures ParseKey(FormatKey(k)) == Some(k)
  {
    var d, n := Decimal(k.descriptor), Decimal(k.sequence);
    var head := k.event + [':'] + d;
    var s := FormatKey(k);
    assert s == head + [':'] + n;
    LastColonOf(head, n);
    assert s[|head| + 1..] == n && s[..|head|] == head;
    LastColonOf(k.event, d);
    assert head[|k.event| + 1..] == d && head[..|k.event|] == k.event;
    ParseDecimal(k.descriptor);
    ParseDecimal(k.sequence);
  }

  function Exported(reported: set<Key>): set<string> {
    set k | k in reported :: FormatKey(k)
  }

  function Restored(state: set<string>): set<Key> {
    set s | s in state && ParseKey(s).Some? :: ParseKey(s).value
  }

  lemma ExportedIsWritten(reported: set<Key>, s: string) returns (k: Key)
    requires s in Exported(reported)
    ensures k in reported && FormatKey(k) == s
  {
    k :| k in reported && FormatKey(k) == s;
  }

  /** Exporting and restoring keeps exactly the memory of filed reports. */
  lemma StateRoundTrip(reported: set<Key>)
    requires forall k :: k in reported ==> Bounded(k)
    ensures Restored(Exported(reported)) == reported
  {
    forall k ensures k in Restored(Exported(reported)) <==> k in reported {
      if k in reported {
        KeyRoundTrip(k);
        assert FormatKey(k) in Exported(reported);
      }
      if k in Restored(Exported(reported)) {
        var s :| s in Exported(reported) && ParseKey(s) == Some(k);
        var j := ExportedIsWritten(reported, s);
        KeyRoundTrip(j);
      }
    }
  }

  /** The written form: the id, the descriptor's position and the number, colons between. */
  lemma WrittenForm(event: ObjectId, descriptor: nat, sequence: nat)
    requires descriptor < 10 && 10 <= sequence < 100
    ensures FormatKey(Key(event, descriptor, sequence))
      == event + ":" + [(descriptor + 48) as char] + ":" + [(sequence / 10 + 48) as char, (sequence % 10 + 48) as char]
  {
    assert Decimal(sequence) == [DigitOf(sequence / 10)] + [DigitOf(sequence % 10)];
  }
}
