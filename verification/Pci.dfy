/** Splitting and joining at a separator. */
module Separators {
  function Split(s: string, c: char): (r: seq<string>)
    ensures r != []
  {
    if s == [] then [[]]
    else
      var rest := Split(s[1..], c);
      if s[0] == c then [[]] + rest else [[s[0]] + rest[0]] + rest[1..]
  }

  function Join(parts: seq<string>, c: char): string {
    if parts == [] then []
    else if |parts| == 1 then parts[0]
    else parts[0] + [c] + Join(parts[1..], c)
  }

  ghost predicate Clear(parts: seq<string>, c: char) {
    forall i :: 0 <= i < |parts| ==> c !in parts[i]
  }

  /** Text without the separator stays in one piece. */
  lemma {:induction false} SplitHead(a: string, rest: string, c: char)
    requires c !in a
    ensures Split(a, c) == [a]
    ensures Split(a + [c] + rest, c) == [a] + Split(rest, c)
  {
    if a == [] {
      assert a + [c] + rest == [c] + rest && ([c] + rest)[1..] == rest;
    } else {
      SplitHead(a[1..], rest, c);
      assert (a + [c] + rest)[1..] == a[1..] + [c] + rest;
      assert a == [a[0]] + a[1..];
    }
  }

  lemma {:induction false} SplitJoin(parts: seq<string>, c: char)
    requires parts != [] && Clear(parts, c)
    ensures Split(Join(parts, c), c) == parts
  {
    if |parts| == 1 {
      SplitHead(parts[0], [], c);
    } else {
      SplitHead(parts[0], Join(parts[1..], c), c);
      SplitJoin(parts[1..], c);
    }
  }

  lemma {:induction false} JoinSplit(s: string, c: char)
    ensures Join(Split(s, c), c) == s && Clear(Split(s, c), c)
  {
    if s != [] {
      JoinSplit(s[1..], c);
      var rest := Split(s[1..], c);
      assert s == [s[0]] + s[1..];
      if s[0] == c {
        assert Split(s, c)[1..] == rest;
      } else {
        assert Split(s, c)[1..] == rest[1..];
      }
    }
  }
}

/** Numbers in base sixteen as they are printed and read. */
module Hex {
  import opened Wrappers

  function Digit(d: nat): char
    requires d < 16
  {
    "0123456789abcdef"[d]
  }

  /** Either case is read. */
  function DigitValue(c: char): Option<nat> {
    if '0' <= c <= '9' then Some((c - '0') as nat)
    else if 'a' <= c <= 'f' then Some((c - 'a') as nat + 10)
    else if 'A' <= c <= 'F' then Some((c - 'A') as nat + 10)
    else None
  }

  function Digits(n: nat): (r: string)
    ensures r != []
  {
    if n < 16 then [Digit(n)] else Digits(n / 16) + [Digit(n % 16)]
  }

  function Zeros(k: int): string
    decreases if k < 0 then 0 else k
  {
    if k <= 0 then [] else ['0'] + Zeros(k - 1)
  }

  /** Print with at least `width` digits. */
  function Padded(n: nat, width: nat): string {
    Zeros(width - |Digits(n)|) + Digits(n)
  }

  function Value(s: string): Option<nat> {
    if s == [] then Some(0)
    else
      var high, low := Value(s[..|s| - 1]), DigitValue(s[|s| - 1]);
      if high.None? || low.None? then None else Some(16 * high.value + low.value)
  }

  predicate IsDigits(s: string) {
    forall c <- s :: '0' <= c <= '9' || 'a' <= c <= 'f'
  }

  lemma DigitRead(d: nat)
    requires d < 16
    ensures DigitValue(Digit(d)) == Some(d) && IsDigits([Digit(d)])
  {
  }

  lemma ValueEnds(s: string, c: char)
    ensures Value(s + [c]) ==
      if Value(s).None? || DigitValue(c).None? then None else Some(16 * Value(s).value + DigitValue(c).value)
  {
    assert (s + [c])[..|s + [c]| - 1] == s;
  }

  lemma {:induction false} DigitsRead(n: nat)
    ensures Value(Digits(n)) == Some(n) && IsDigits(Digits(n))
  {
    hide Digit, DigitValue, Value;
    if n < 16 {
      DigitRead(n);
      ValueEnds([], Digit(n));
      NoDigits();
      assert [] + [Digit(n)] == [Digit(n)];
    } else {
      DigitsRead(n / 16);
      DigitRead(n % 16);
      ValueEnds(Digits(n / 16), Digit(n % 16));
      assert Digit(n % 16) in [Digit(n % 16)];
    }
  }

  lemma NoDigits()
    ensures Value([]) == Some(0)
  {
  }

  lemma {:induction false} LeadingZeros(k: int, s: string)
    ensures Value(Zeros(k) + s) == Value(s) && IsDigits(Zeros(k))
    decreases |s|, if k < 0 then 0 else k
  {
    if s != [] {
      LeadingZeros(k, s[..|s| - 1]);
      assert (Zeros(k) + s)[..|Zeros(k) + s| - 1] == Zeros(k) + s[..|s| - 1];
    } else if k > 0 {
      LeadingZeros(k - 1, []);
      ZerosEnd(k);
      assert Zeros(k) + s == Zeros(k) && Zeros(k - 1) + s == Zeros(k - 1);
    }
  }

  lemma {:induction false} ZerosEnd(k: int)
    requires k > 0
    ensures Zeros(k) == Zeros(k - 1) + ['0']
    decreases k
  {
    if k > 1 {
      ZerosEnd(k - 1);
    }
  }

  /** What is printed reads back as the number, whatever the width. */
  lemma PaddedRead(n: nat, width: nat)
    ensures Value(Padded(n, width)) == Some(n) && IsDigits(Padded(n, width)) && Padded(n, width) != []
  {
    DigitsRead(n);
    LeadingZeros(width - |Digits(n)|, Digits(n));
  }

  /** `from_str_radix`: an optional sign, a minus only for signed types, at least one digit, and a value in range. */
  function FromRadix(s: string, signed: bool, lo: int, hi: int): Option<int> {
    if s == [] || s == "+" || s == "-" then None
    else
      var minus := signed && s[0] == '-';
      var v := Value(if s[0] == '+' || minus then s[1..] else s);
      if v.None? then None
      else
        var n: int := if minus then -(v.value as int) else v.value;
        if lo <= n <= hi then Some(n) else None
  }

  /** Digits of either case are worth the same. */
  lemma EitherCase(d: nat)
    requires 10 <= d < 16
    ensures DigitValue('a' + (d - 10) as char) == DigitValue('A' + (d - 10) as char) == Some(d)
  {
  }

  /** One sign may come before the digits; a minus turns the number round, and only signed types take it. */
  lemma Signs(s: string, n: nat, signed: bool, lo: int, hi: int)
    requires s != [] && Value(s) == Some(n)
    ensures FromRadix("+" + s, signed, lo, hi) == if lo <= n <= hi then Some(n) else None
    ensures FromRadix("-" + s, signed, lo, hi) == if signed && lo <= 0 - n <= hi then Some(0 - n) else None
  {
    hide Value;
    var plus, minus := "+" + s, "-" + s;
    assert plus[0] == '+' && plus[1..] == s && minus[0] == '-' && minus[1..] == s;
    NoMinus(s);
  }

  /** Without digits there is no number. */
  lemma NoNumber(signed: bool, lo: int, hi: int)
    ensures FromRadix("", signed, lo, hi) == FromRadix("+", signed, lo, hi) == FromRadix("-", signed, lo, hi) == None
  {
  }

  lemma {:induction false} NoMinus(s: string)
    ensures Value("-" + s).None?
  {
    var t := "-" + s;
    if s == [] {
      assert t[..0] == [] && DigitValue('-').None?;
    } else {
      NoMinus(s[..|s| - 1]);
      assert t[..|t| - 1] == "-" + s[..|s| - 1];
    }
  }

  lemma ReadsBack(n: nat, width: nat, signed: bool, lo: int, hi: int)
    ensures FromRadix(Padded(n, width), signed, lo, hi) == if lo <= n <= hi then Some(n) else None
  {
    PaddedRead(n, width);
    var s := Padded(n, width);
    assert s[0] in s;
  }
}

/** Locations of PCI functions: slot and function numbers, addresses, and paths through bridges. */
module Pci {
  import opened Wrappers
  import opened Separators
  import opened Hex

  const SLOT_MAX := 31
  const FUNCTION_MAX := 7
  const ISIZE_MAX := 0x7fff_ffff_ffff_ffff

  /** Five bits of slot above three bits of function. */
  datatype SlotFn = SlotFn(bits: nat) {
    predicate Valid() {
      bits <= 0xff
    }

    function Slot(): nat {
      bits / 8
    }

    function Function(): nat {
      bits % 8
    }
  }

  function NewSlotFn(slot: int, func: int): Option<SlotFn> {
    if 0 <= slot <= SLOT_MAX && 0 <= func <= FUNCTION_MAX then Some(SlotFn(slot * 8 + func)) else None
  }

  /** Packing and unpacking are inverse, and every byte is a location. */
  lemma PackingIsExact(x: SlotFn, slot: int, func: int)
    requires x.Valid()
    ensures NewSlotFn(x.Slot(), x.Function()) == Some(x) && x.bits == 8 * x.Slot() + x.Function()
    ensures NewSlotFn(slot, func).Some? <==> 0 <= slot <= SLOT_MAX && 0 <= func <= FUNCTION_MAX
    ensures NewSlotFn(slot, func).Some? ==>
      var y := NewSlotFn(slot, func).value; y.Valid() && y.Slot() == slot && y.Function() == func
  {
  }

  function PrintSlotFn(x: SlotFn): string {
    Padded(x.Slot(), 2) + "." + Padded(x.Function(), 1)
  }

  function ReadSize(s: string): Option<int> {
    FromRadix(s, true, -ISIZE_MAX - 1, ISIZE_MAX)
  }

  function ParseSlotFn(s: string): Option<SlotFn> {
    var tokens := Split(s, '.');
    if |tokens| > 2 then None
    else
      var slot := ReadSize(tokens[0]);
      var func := if |tokens| == 2 then ReadSize(tokens[1]) else Some(0);
      if slot.None? || func.None? then None else NewSlotFn(slot.value, func.value)
  }

  /** A text with one dot is a slot and a function, one without a dot the slot's function zero, and more dots are too
      many. */
  lemma SlotFnTexts(a: string, b: string, c: string)
    requires '.' !in a && '.' !in b
    ensures ParseSlotFn(a + "." + b) == (if ReadSize(a).None? || ReadSize(b).None? then None
                                         else NewSlotFn(ReadSize(a).value, ReadSize(b).value))
    ensures ParseSlotFn(a) == ParseSlotFn(a + ".0")
    ensures ParseSlotFn(a + "." + b + "." + c).None?
  {
    hide ReadSize, NewSlotFn, Split;
    SplitHead(a, b, '.');
    SplitHead(b, [], '.');
    SplitHead(a, "0", '.');
    SplitHead("0", [], '.');
    assert a + "." + "0" == a + ".0";
    assert a + "." + b + "." + c == a + "." + (b + "." + c);
    SplitHead(a, b + "." + c, '.');
    SplitHead(b, c, '.');
    ReadsZero();
  }

  lemma ReadsZero()
    ensures ReadSize("0") == Some(0)
  {
    assert Padded(0, 1) == "0";
    ReadsBack(0, 1, true, -ISIZE_MAX - 1, ISIZE_MAX);
  }

  datatype Address = Address(domain: nat, bus: nat, slotfn: SlotFn) {
    predicate Valid() {
      domain <= 0xffff && bus <= 0xff && slotfn.Valid()
    }
  }

  function PrintAddress(a: Address): string {
    Padded(a.domain, 4) + ":" + Padded(a.bus, 2) + ":" + PrintSlotFn(a.slotfn)
  }

  function ParseAddress(s: string): Option<Address> {
    var tokens := Split(s, ':');
    if |tokens| != 3 then None
    else
      var domain := FromRadix(tokens[0], false, 0, 0xffff);
      var bus := FromRadix(tokens[1], false, 0, 0xff);
      var slotfn := ParseSlotFn(tokens[2]);
      if domain.None? || bus.None? || slotfn.None? then None
      else Some(Address(domain.value, bus.value, slotfn.value))
  }

  /** The text of a location has digits and a dot in it, and nothing else. */
  predicate Plain(s: string) {
    forall c <- s :: '0' <= c <= '9' || 'a' <= c <= 'f' || c == '.'
  }

  lemma SlotFnRoundTrip(x: SlotFn)
    requires x.Valid()
    ensures ParseSlotFn(PrintSlotFn(x)) == Some(x) && Plain(PrintSlotFn(x)) && PrintSlotFn(x) != []
  {
    hide Padded, FromRadix, Value;
    var a, b := Padded(x.Slot(), 2), Padded(x.Function(), 1);
    PaddedRead(x.Slot(), 2);
    PaddedRead(x.Function(), 1);
    ReadsBack(x.Slot(), 2, true, -ISIZE_MAX - 1, ISIZE_MAX);
    ReadsBack(x.Function(), 1, true, -ISIZE_MAX - 1, ISIZE_MAX);
    SplitHead(a, b, '.');
    SplitHead(b, [], '.');
    PackingIsExact(x, 0, 0);
  }

  lemma TwoDigits(n: nat)
    requires n < 256
    ensures |Padded(n, 2)| == 2 && (n < 16 ==> |Padded(n, 1)| == 1)
  {
    assert |Digits(n / 16)| == 1;
  }

  lemma FourDigits(n: nat)
    requires n < 0x1_0000
    ensures |Padded(n, 4)| == 4
  {
    var a := n / 16;
    var b := a / 16;
    assert b / 16 < 16 && |Digits(b / 16)| == 1;
    assert |Digits(b)| <= 2;
    assert |Digits(a)| <= 3;
    ZerosLength(4 - |Digits(n)|);
  }

  lemma {:induction false} ZerosLength(k: int)
    ensures |Zeros(k)| == Max(0, k)
    decreases if k < 0 then 0 else k
  {
    if k > 0 {
      ZerosLength(k - 1);
    }
  }

  /** The text of an address has its separators in fixed places. */
  lemma AddressText(a: Address)
    requires a.Valid()
    ensures |PrintSlotFn(a.slotfn)| == 4 && PrintSlotFn(a.slotfn)[2] == '.'
    ensures |PrintAddress(a)| == 12 && PrintAddress(a)[4] == ':' && PrintAddress(a)[7] == ':'
    ensures PrintAddress(a)[8..] == PrintSlotFn(a.slotfn)
  {
    hide Padded;
    var d, b, x := Padded(a.domain, 4), Padded(a.bus, 2), PrintSlotFn(a.slotfn);
    assert PrintAddress(a)[|d| + 1 + |b| + 1..] == x;
    FourDigits(a.domain);
    TwoDigits(a.bus);
    TwoDigits(a.slotfn.Slot());
    TwoDigits(a.slotfn.Function());
  }

  /** Every address reads back from its text. */
  lemma AddressRoundTrip(a: Address)
    requires a.Valid()
    ensures ParseAddress(PrintAddress(a)) == Some(a) && ',' !in PrintAddress(a)
  {
    hide Padded, FromRadix, Value, PrintSlotFn, ParseSlotFn;
    var d, b, x := Padded(a.domain, 4), Padded(a.bus, 2), PrintSlotFn(a.slotfn);
    PaddedRead(a.domain, 4);
    PaddedRead(a.bus, 2);
    ReadsBack(a.domain, 4, false, 0, 0xffff);
    ReadsBack(a.bus, 2, false, 0, 0xff);
    SlotFnRoundTrip(a.slotfn);
    SplitHead(d, b + ":" + x, ':');
    SplitHead(b, x, ':');
    SplitHead(x, [], ':');
    assert PrintAddress(a) == d + ":" + (b + ":" + x);
  }

  type Path = seq<SlotFn>

  function Texts(p: Path): seq<string> {
    if p == [] then [] else [PrintSlotFn(p[0])] + Texts(p[1..])
  }

  function PrintPath(p: Path): string {
    Join(Texts(p), '/')
  }

  function ParseAll(tokens: seq<string>): Option<Path> {
    if tokens == [] then Some([])
    else
      var head, rest := ParseSlotFn(tokens[0]), ParseAll(tokens[1..]);
      if head.None? || rest.None? then None else Some([head.value] + rest.value)
  }

  function ParsePath(s: string): Option<Path> {
    ParseAll(Split(s, '/'))
  }

  lemma {:induction false} TextsRead(p: Path)
    requires forall i :: 0 <= i < |p| ==> p[i].Valid()
    ensures ParseAll(Texts(p)) == Some(p) && |Texts(p)| == |p| && Clear(Texts(p), '/')
  {
    hide PrintSlotFn, ParseSlotFn;
    if p != [] {
      SlotFnRoundTrip(p[0]);
      TextsRead(p[1..]);
      assert Texts(p)[1..] == Texts(p[1..]);
      assert [p[0]] + p[1..] == p;
    }
  }

  /** Every path of at least one hop, however long, reads back from its text. */
  lemma PathRoundTrip(p: Path)
    requires p != [] && forall i :: 0 <= i < |p| ==> p[i].Valid()
    ensures ParsePath(PrintPath(p)) == Some(p)
  {
    TextsRead(p);
    SplitJoin(Texts(p), '/');
  }

  lemma ParsedSlotFn(s: string)
    ensures ParseSlotFn(s).Some? ==> ParseSlotFn(s).value.Valid()
  {
    hide ReadSize, Split;
  }

  lemma ParsedAddress(s: string)
    ensures ParseAddress(s).Some? ==> ParseAddress(s).value.Valid()
  {
    hide Split, Value, ParseSlotFn;
    if |Split(s, ':')| == 3 {
      ParsedSlotFn(Split(s, ':')[2]);
    }
  }

  ghost predicate AllValid(p: Path) {
    forall i :: 0 <= i < |p| ==> p[i].Valid()
  }

  lemma {:induction false} ParsedTokens(tokens: seq<string>)
    ensures ParseAll(tokens).Some? ==> |ParseAll(tokens).value| == |tokens| && AllValid(ParseAll(tokens).value)
  {
    hide ParseSlotFn;
    if tokens != [] {
      ParsedSlotFn(tokens[0]);
      ParsedTokens(tokens[1..]);
    }
  }

  /** What parses is a path that prints and reads back as itself. */
  lemma ParsedPath(s: string)
    ensures var p := ParsePath(s); p.Some? ==> p.value != [] && ParsePath(PrintPath(p.value)) == p
  {
    ParsedTokens(Split(s, '/'));
    if ParsePath(s).Some? {
      PathRoundTrip(ParsePath(s).value);
    }
  }
}
