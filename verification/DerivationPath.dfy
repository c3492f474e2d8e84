/** Hierarchical deterministic wallet paths: their text form, and the parser that reads it. */
module DerivationPaths {
  import opened Options
  import opened Words

  const U32: nat := 0x1_0000_0000
  const HARDENED: nat := 0x8000_0000

  /** A path is a sequence of 32-bit components; those from `HARDENED` up are hardened. */
  type Path = seq<nat>

  const DEFAULT_ROOT: Path := [HARDENED + 44, HARDENED + 60, HARDENED + 0, 0]

  ghost predicate Valid(p: Path) {
    forall i | 0 <= i < |p| :: p[i] < U32
  }

  datatype Error = EmptyPath | AmbiguousPath | InvalidComponent | OutOfRange

  datatype Result<+T> = Ok(value: T) | Err(error: Error)

  // ---- Text ----

  predicate IsSpace(c: char) {
    var n := c as int;
    || 9 <= n <= 13 || n == 0x20 || n == 0x85 || n == 0xA0 || n == 0x1680 || 0x2000 <= n <= 0x200A
    || n == 0x2028 || n == 0x2029 || n == 0x202F || n == 0x205F || n == 0x3000
  }

  function TrimLeft(s: string): string {
    if s != "" && IsSpace(s[0]) then TrimLeft(s[1..]) else s
  }

  function TrimRight(s: string): string {
    if s != "" && IsSpace(s[|s| - 1]) then TrimRight(s[..|s| - 1]) else s
  }

  function TrimSpace(s: string): string {
    TrimRight(TrimLeft(s))
  }

  function Split(s: string): (parts: seq<string>)
    ensures |parts| > 0
  {
    if s == "" then [""] else
    var rest := Split(s[1..]);
    if s[0] == '/' then [""] + rest else [[s[0]] + rest[0]] + rest[1..]
  }

  // ---- Numbers ----

  function DigitValue(c: char): nat {
    if '0' <= c <= '9' then c as int - '0' as int
    else if 'a' <= c <= 'z' then c as int - 'a' as int + 10
    else if 'A' <= c <= 'Z' then c as int - 'A' as int + 10
    else 63
  }

  /** What was read last: nothing, a base prefix, a digit or a separator. */
  datatype Seen = Start | Prefix | Digit | Separator

  /** Digits in the given base; an underscore may follow a digit or a base prefix, but not end the
      number. */
  function Scan(s: string, base: nat, seen: Seen, acc: nat): Option<nat>
    decreases |s|
  {
    if s == "" then (if seen == Digit then Some(acc) else None)
    else if s[0] == '_' then (if seen == Digit || seen == Prefix then Scan(s[1..], base, Separator, acc) else None)
    else if DigitValue(s[0]) < base then Scan(s[1..], base, Digit, acc * base + DigitValue(s[0]))
    else None
  }

  /** An unsigned number whose base is told by its prefix; a lone leading zero means octal. */
  function Natural(s: string): Option<nat> {
    if s == "" || s[0] != '0' then Scan(s, 10, Start, 0)
    else if |s| == 1 then Some(0)
    else if s[1] == 'b' || s[1] == 'B' then Scan(s[2..], 2, Prefix, 0)
    else if s[1] == 'o' || s[1] == 'O' then Scan(s[2..], 8, Prefix, 0)
    else if s[1] == 'x' || s[1] == 'X' then Scan(s[2..], 16, Prefix, 0)
    else Scan(s[1..], 8, Digit, 0)
  }

  function SetString(s: string): Option<int> {
    if s != "" && (s[0] == '-' || s[0] == '+') then
      match Natural(s[1..])
      case None => None
      case Some(n) => Some(if s[0] == '-' then 0 - n as int else n as int)
    else
      match Natural(s)
      case None => None
      case Some(n) => Some(n)
  }

  function Decimal(n: nat): string {
    if n < 10 then ['0' + n as char] else Decimal(n / 10) + ['0' + (n % 10) as char]
  }

  // ---- The parser and the printer, as functions ----

  /** The number in front of the mark, and whether there is a mark. */
  function Unmarked(component: string): (string, bool) {
    var s := TrimSpace(component);
    if s != "" && s[|s| - 1] == '\'' then (TrimSpace(s[..|s| - 1]), true) else (s, false)
  }

  /** What a number, with its mark or without, means. */
  function Meaning(digits: string, hardened: bool): (r: Result<nat>)
    ensures r.Ok? ==> r.value < U32
  {
    var offset := if hardened then HARDENED else 0;
    match SetString(digits)
    case None => Err(InvalidComponent)
    case Some(n) => if n < 0 || n > U32 - 1 - offset then Err(OutOfRange) else Ok(offset + n)
  }

  function Component(component: string): (r: Result<nat>)
    ensures r.Ok? ==> r.value < U32
  {
    var unmarked := Unmarked(component);
    Meaning(unmarked.0, unmarked.1)
  }

  function Components(parts: seq<string>): (r: Result<Path>)
    ensures r.Ok? ==> |r.value| == |parts| && Valid(r.value)
  {
    if parts == [] then Ok([]) else
    var first := Component(parts[0]);
    if first.Err? then Err(first.error) else
    var rest := Components(parts[1..]);
    if rest.Err? then rest else Ok([first.value] + rest.value)
  }

  function After(root: Path, r: Result<Path>): Result<Path> {
    if r.Err? then r else Ok(root + r.value)
  }

  function Parsed(text: string): Result<Path> {
    var parts := Split(text);
    var first := TrimSpace(parts[0]);
    if first == "" then Err(AmbiguousPath)
    else if first != "m" then After(DEFAULT_ROOT, Components(parts))
    else if |parts| == 1 then Err(EmptyPath)
    else Components(parts[1..])
  }

  function ComponentText(n: nat): string {
    if n >= HARDENED then Decimal(n - HARDENED) + "'" else Decimal(n)
  }

  function Tail(p: Path): string {
    if p == [] then "" else "/" + ComponentText(p[0]) + Tail(p[1..])
  }

  function Printed(p: Path): string {
    "m" + Tail(p)
  }

  // ---- The parser and the printer ----

  method ParseComponent(text: string) returns (r: Result<nat>)
    ensures r == Component(text)
  {
    var component, value := TrimSpace(text), 0;
    if component != "" && component[|component| - 1] == '\'' {
      value := HARDENED;
      component := TrimSpace(component[..|component| - 1]);
    }
    var number := SetString(component);
    if number.None? {
      return Err(InvalidComponent);
    }
    var max := U32 - 1 - value;
    if number.value < 0 || number.value > max {
      return Err(OutOfRange);
    }
    r := Ok(value + number.value);
  }

  /** One more component moves from the front of what is left to the end of what is read. */
  lemma ReadOne(read: Path, left: seq<string>)
    requires left != []
    ensures var first := Component(left[0]);
            After(read, Components(left)) ==
            if first.Err? then Err(first.error) else After(read + [first.value], Components(left[1..]))
  {
    var first, rest := Component(left[0]), Components(left[1..]);
    if first.Ok? && rest.Ok? {
      assert read + ([first.value] + rest.value) == read + [first.value] + rest.value;
    }
  }

  /** Appends the components one by one to what is already there. */
  method ParseComponents(root: Path, components: seq<string>) returns (r: Result<Path>)
    ensures r == After(root, Components(components))
  {
    var result := root;
    assert components[0..] == components;
    for i := 0 to |components|
      invariant After(root, Components(components)) == After(result, Components(components[i..]))
    {
      ReadOne(result, components[i..]);
      assert components[i..][0] == components[i] && components[i..][1..] == components[i + 1..];
      var value := ParseComponent(components[i]);
      if value.Err? {
        return Err(value.error);
      }
      result := result + [value.value];
    }
    assert result + [] == result;
    r := Ok(result);
  }

  method ParseDerivationPath(text: string) returns (r: Result<Path>)
    ensures r == Parsed(text)
  {
    var result: Path := [];
    var components := Split(text);
    var first := TrimSpace(components[0]);
    if first == "" {
      return Err(AmbiguousPath);
    } else if first == "m" {
      components := components[1..];
    } else {
      result := DEFAULT_ROOT;
    }
    if components == [] {
      return Err(EmptyPath);
    }
    r := ParseComponents(result, components);
    assert r.Ok? && result == [] ==> [] + Components(components).value == Components(components).value;
  }

  lemma PrintOne(text: string, p: Path, i: nat)
    requires i < |p|
    ensures var n, rest := p[i], Tail(p[i + 1..]);
            text + Tail(p[i..]) == if n >= HARDENED then text + "/" + Decimal(n - HARDENED) + "'" + rest
                                   else text + "/" + Decimal(n) + rest
  {
    var n, rest := p[i], Tail(p[i + 1..]);
    assert p[i..][0] == n && p[i..][1..] == p[i + 1..];
    if n >= HARDENED {
      PrintMarked(text, Decimal(n - HARDENED), rest);
    } else {
      Regroup(text, "/", Decimal(n), rest);
    }
  }

  lemma PrintMarked(text: string, digits: string, rest: string)
    ensures text + ("/" + (digits + "'") + rest) == text + "/" + digits + "'" + rest
  {
    Regroup(text, "/", digits + "'", rest);
    RegroupLast(text + "/", digits, "'", rest);
  }

  lemma Regroup(a: string, b: string, c: string, d: string)
    ensures a + (b + c + d) == a + b + c + d
  {
  }

  lemma RegroupLast(a: string, b: string, c: string, d: string)
    ensures a + (b + c) + d == a + b + c + d
  {
  }

  method ToString(p: Path) returns (text: string)
    ensures text == Printed(p)
  {
    text := "m";
    assert p[0..] == p;
    for i := 0 to |p|
      invariant text + Tail(p[i..]) == Printed(p)
    {
      var component, hardened := p[i], false;
      if component >= HARDENED {
        component, hardened := component - HARDENED, true;
      }
      PrintOne(text, p, i);
      text := text + "/" + Decimal(component);
      if hardened {
        text := text + "'";
      }
    }
    assert p[|p|..] == [] && text + "" == text;
  }

  // ---- Signs and separators ----

  /** A character of a number is a digit, or an underscore behind a digit or a base prefix. */
  predicate Placed(s: string, base: nat, seen: Seen, i: nat)
    requires i < |s|
  {
    if s[i] != '_' then DigitValue(s[i]) < base
    else if i > 0 then s[i - 1] != '_' else seen == Digit || seen == Prefix
  }

  /** A number is read if and only if each of its characters is in place and the last is a digit. */
  lemma {:induction false} ScanAccepts(s: string, base: nat, seen: Seen, acc: nat)
    ensures Scan(s, base, seen, acc).Some? <==>
            if s == "" then seen == Digit
            else s[|s| - 1] != '_' && forall i | 0 <= i < |s| :: Placed(s, base, seen, i)
    decreases |s|
  {
    if s != "" && Placed(s, base, seen, 0) {
      var next := if s[0] == '_' then Separator else Digit;
      ScanAccepts(s[1..], base, next, if s[0] == '_' then acc else acc * base + DigitValue(s[0]));
      var rest := s[1..];
      forall i | 0 <= i < |rest|
        ensures Placed(rest, base, next, i) <==> Placed(s, base, seen, i + 1)
      {
        assert rest[i] == s[i + 1];
      }
      assert forall i | 0 < i < |s| :: Placed(s, base, seen, i) <==> Placed(rest, base, next, i - 1);
    }
  }

  function WithoutSeparators(s: string): (r: string)
    ensures '_' !in r
    ensures s != "" && s[|s| - 1] != '_' ==> r != ""
  {
    if s == "" then "" else if s[0] == '_' then WithoutSeparators(s[1..]) else [s[0]] + WithoutSeparators(s[1..])
  }

  /** The underscores of a number that is read do not change its value. */
  lemma {:induction false} SeparatorsIgnored(s: string, base: nat, seen: Seen, acc: nat)
    requires s != "" && Scan(s, base, seen, acc).Some?
    ensures Scan(WithoutSeparators(s), base, seen, acc) == Scan(s, base, seen, acc)
    decreases |s|
  {
    ScanAccepts(s, base, seen, acc);
    if s[0] == '_' {
      SeparatorsIgnored(s[1..], base, Separator, acc);
    } else if |s| > 1 {
      SeparatorsIgnored(s[1..], base, Digit, acc * base + DigitValue(s[0]));
    }
  }

  /** One sign may lead a number, and a minus negates it. */
  lemma SignReads(s: string)
    ensures s != "" && (s[0] == '-' || s[0] == '+') ==> SetString("-" + s).None? && SetString("+" + s).None?
    ensures s == "" || (s[0] != '-' && s[0] != '+') ==>
              && SetString("+" + s) == SetString(s)
              && SetString("-" + s) == match SetString(s) case None => None case Some(n) => Some(0 - n)
  {
    assert ("-" + s)[1..] == s && ("+" + s)[1..] == s;
  }

  // ---- Decimal numbers read back ----

  lemma {:induction false} ScanMore(s: string, base: nat, seen: Seen, acc: nat, c: char)
    requires Scan(s, base, seen, acc).Some? && c != '_' && DigitValue(c) < base
    ensures Scan(s + [c], base, seen, acc) == Some(Scan(s, base, seen, acc).value * base + DigitValue(c))
    decreases |s|
  {
    if s == "" {
      assert (s + [c])[1..] == "";
    } else {
      assert (s + [c])[1..] == s[1..] + [c];
      if s[0] == '_' {
        ScanMore(s[1..], base, Separator, acc, c);
      } else {
        ScanMore(s[1..], base, Digit, acc * base + DigitValue(s[0]), c);
      }
    }
  }

  predicate IsDigit(c: char) {
    '0' <= c <= '9'
  }

  lemma {:induction false} DecimalShape(n: nat)
    ensures Decimal(n) != "" && (n > 0 ==> Decimal(n)[0] != '0') && (n == 0 ==> Decimal(n) == "0")
    ensures forall i | 0 <= i < |Decimal(n)| :: IsDigit(Decimal(n)[i])
  {
    if n >= 10 {
      DecimalShape(n / 10);
    }
  }

  lemma {:induction false} DecimalScans(n: nat)
    ensures Scan(Decimal(n), 10, Start, 0) == Some(n)
  {
    var c := '0' + (n % 10) as char;
    assert DigitValue(c) == n % 10 && c != '_';
    if n < 10 {
      assert Decimal(n)[1..] == "";
    } else {
      DecimalScans(n / 10);
      ScanMore(Decimal(n / 10), 10, Start, 0, c);
    }
  }

  lemma DecimalReads(n: nat)
    ensures SetString(Decimal(n)) == Some(n)
  {
    DecimalShape(n);
    DecimalScans(n);
    assert IsDigit(Decimal(n)[0]);
  }

  // ---- Components read back ----

  lemma TrimNothing(s: string)
    requires s != "" && !IsSpace(s[0]) && !IsSpace(s[|s| - 1])
    ensures TrimSpace(s) == s
  {
  }

  lemma ComponentReads(n: nat)
    requires n < U32
    ensures Component(ComponentText(n)) == Ok(n)
  {
    var k := if n >= HARDENED then n - HARDENED else n;
    var digits, text := Decimal(k), ComponentText(n);
    DecimalShape(k);
    assert IsDigit(digits[0]) && IsDigit(digits[|digits| - 1]);
    TrimNothing(digits);
    DecimalReads(k);
    if n >= HARDENED {
      TrimNothing(text);
      assert text[..|text| - 1] == digits;
    }
  }

  lemma NoSlash(n: nat)
    ensures '/' !in ComponentText(n)
  {
    DecimalShape(if n >= HARDENED then n - HARDENED else n);
  }

  lemma {:induction false} SplitAt(a: string, b: string)
    requires '/' !in a
    ensures Split(a + "/" + b) == [a] + Split(b)
  {
    var s := a + "/" + b;
    if a == "" {
      assert s[1..] == b;
    } else {
      assert s[1..] == a[1..] + "/" + b;
      SplitAt(a[1..], b);
      assert [s[0]] + a[1..] == a;
    }
  }

  lemma {:induction false} SplitNone(a: string)
    requires '/' !in a
    ensures Split(a) == [a]
  {
    if a != "" {
      SplitNone(a[1..]);
      assert [a[0]] + a[1..] == a;
    }
  }

  lemma {:induction false} TailReads(a: string, p: Path)
    requires Valid(p) && '/' !in a
    ensures var parts := Split(a + Tail(p)); parts[0] == a && Components(parts[1..]) == Ok(p)
    decreases |p|
  {
    if p == [] {
      assert a + "" == a;
      SplitNone(a);
    } else {
      var first := ComponentText(p[0]);
      var text := first + Tail(p[1..]);
      assert a + Tail(p) == a + "/" + text;
      SplitAt(a, text);
      SplitHead(a, Split(text), Split(a + Tail(p)));
      NoSlash(p[0]);
      TailReads(first, p[1..]);
      ComponentReads(p[0]);
      assert [p[0]] + p[1..] == p;
    }
  }

  /** Printing and parsing gives the same path back, hardened bits included, unless it is empty. */
  lemma RoundTrip(p: Path)
    requires Valid(p)
    ensures Parsed(Printed(p)) == if p == [] then Err(EmptyPath) else Ok(p)
  {
    TailReads("m", p);
    TrimNothing("m");
  }

  /** Whatever text a path came from, its printed form means the same. */
  lemma Canonical(text: string)
    requires Parsed(text).Ok?
    ensures Valid(Parsed(text).value) && Parsed(Printed(Parsed(text).value)) == Parsed(text)
  {
    RoundTrip(Parsed(text).value);
  }

  // ---- What the text means ----

  function DigitChar(d: nat): char
    requires d < 16
  {
    if d < 10 then '0' + d as char else 'a' + (d - 10) as char
  }

  /** A number written in some base. */
  function Numeral(n: nat, base: nat): string
    requires 2 <= base <= 16
  {
    if n < base then [DigitChar(n)] else Numeral(n / base, base) + [DigitChar(n % base)]
  }

  lemma DigitReads(d: nat)
    requires d < 16
    ensures DigitValue(DigitChar(d)) == d && DigitChar(d) != '_'
    ensures d >= 10 ==> DigitValue('A' + (d - 10) as char) == d
  {
  }

  lemma InDigits(n: nat, base: nat)
    requires base > 0
    ensures n == n / base * base + n % base && 0 <= n % base < base && 0 <= n / base && (n >= base > 1 ==> n / base < n)
  {
    var q := n / base;
    assert n == q * base + n % base;
    if base > 1 {
      MulMono(q, 2, base);
    }
  }

  lemma {:induction false} NumeralScans(n: nat, base: nat, seen: Seen)
    requires 2 <= base <= 16
    ensures Scan(Numeral(n, base), base, seen, 0) == Some(n)
  {
    InDigits(n, base);
    var q, d := n / base, n % base;
    DigitReads(d);
    var c := DigitChar(d);
    if n < base {
      OneDigit(n, base, seen);
    } else {
      NumeralScans(q, base, seen);
      ScanMore(Numeral(q, base), base, seen, 0, c);
    }
  }

  lemma OneDigit(d: nat, base: nat, seen: Seen)
    requires d < base <= 16
    ensures Scan([DigitChar(d)], base, seen, 0) == Some(d)
  {
    DigitReads(d);
    assert [DigitChar(d)][1..] == "";
  }

  lemma {:induction false} OctalStarts(n: nat)
    ensures Numeral(n, 8) != "" && IsDigit(Numeral(n, 8)[0])
  {
    if n >= 8 {
      OctalStarts(n / 8);
    }
  }

  /** Every number can be written in binary, octal and hexadecimal, with the prefixes of either case. */
  lemma BinaryReads(n: nat)
    ensures SetString("0b" + Numeral(n, 2)) == SetString("0B" + Numeral(n, 2)) == Some(n)
  {
    NumeralScans(n, 2, Prefix);
    assert ("0b" + Numeral(n, 2))[2..] == Numeral(n, 2) && ("0B" + Numeral(n, 2))[2..] == Numeral(n, 2);
  }

  lemma OctalReads(n: nat)
    ensures SetString("0o" + Numeral(n, 8)) == SetString("0O" + Numeral(n, 8)) == SetString("0" + Numeral(n, 8)) == Some(n)
  {
    var s := Numeral(n, 8);
    NumeralScans(n, 8, Prefix);
    NumeralScans(n, 8, Digit);
    OctalStarts(n);
    assert ("0o" + s)[2..] == s && ("0O" + s)[2..] == s && ("0" + s)[1..] == s && ("0" + s)[1] == s[0];
  }

  lemma HexReads(n: nat)
    ensures SetString("0x" + Numeral(n, 16)) == SetString("0X" + Numeral(n, 16)) == Some(n)
  {
    NumeralScans(n, 16, Prefix);
    assert ("0x" + Numeral(n, 16))[2..] == Numeral(n, 16) && ("0X" + Numeral(n, 16))[2..] == Numeral(n, 16);
  }

  /** A mark adds 2^31, and leaves room for as many numbers. */
  lemma MarkHardens(n: nat)
    ensures Component(Decimal(n)) == if n < 4294967296 then Ok(n) else Err(OutOfRange)
    ensures Component(Decimal(n) + "'") == if n < 2147483648 then Ok(n + 2147483648) else Err(OutOfRange)
  {
    var digits := Decimal(n);
    var marked := digits + "'";
    DecimalShape(n);
    DecimalReads(n);
    assert IsDigit(digits[0]) && IsDigit(digits[|digits| - 1]);
    TrimNothing(digits);
    TrimNothing(marked);
    assert marked[..|marked| - 1] == digits;
  }

  /** The default root is m/44'/60'/0'/0. */
  lemma DefaultRoot()
    ensures DEFAULT_ROOT == [2147483692, 2147483708, 2147483648, 0]
  {
  }

  /** A path without a prefix is read below the default root. */
  lemma Relative(text: string)
    requires TrimSpace(Split(text)[0]) != "" && TrimSpace(Split(text)[0]) != "m"
    ensures Parsed(text) == After(DEFAULT_ROOT, Parsed("m/" + text))
  {
    assert Parsed("m/" + text) == Components(Split(text)) by {
      Absolute(text);
    }
  }

  lemma Absolute(text: string)
    ensures Parsed("m/" + text) == Components(Split(text))
  {
    var whole := "m/" + text;
    assert whole == "m" + "/" + text;
    SplitAt("m", text);
    SplitHead("m", Split(text), Split(whole));
    TrimNothing("m");
  }

  lemma SplitHead(a: string, rest: seq<string>, parts: seq<string>)
    requires parts == [a] + rest
    ensures |parts| == |rest| + 1 && parts[0] == a && parts[1..] == rest
  {
  }

  // ---- Whitespace ----

  predicate Blank(s: string) {
    forall i | 0 <= i < |s| :: IsSpace(s[i])
  }

  lemma {:induction false} TrimLeftPadded(a: string, s: string)
    requires Blank(a)
    ensures TrimLeft(a + s) == TrimLeft(s)
  {
    if a == "" {
      assert a + s == s;
    } else {
      assert (a + s)[1..] == a[1..] + s;
      TrimLeftPadded(a[1..], s);
    }
  }

  lemma {:induction false} TrimRightPadded(s: string, b: string)
    requires Blank(b)
    ensures TrimRight(s + b) == TrimRight(s)
  {
    if b == "" {
      assert s + b == s;
    } else {
      assert (s + b)[..|s + b| - 1] == s + b[..|b| - 1];
      TrimRightPadded(s, b[..|b| - 1]);
    }
  }

  lemma {:induction false} TrimLeftThenRight(s: string, b: string)
    requires Blank(b)
    ensures TrimRight(TrimLeft(s + b)) == TrimRight(TrimLeft(s))
  {
    if s == "" {
      assert s + b == b + "" && TrimLeft("") == "";
      TrimLeftPadded(b, "");
    } else if IsSpace(s[0]) {
      assert (s + b)[1..] == s[1..] + b;
      TrimLeftThenRight(s[1..], b);
    } else {
      TrimRightPadded(s, b);
    }
  }

  lemma TrimPadded(a: string, s: string, b: string)
    requires Blank(a) && Blank(b)
    ensures TrimSpace(a + s + b) == TrimSpace(s)
  {
    assert a + s + b == a + (s + b);
    TrimLeftPadded(a, s + b);
    TrimLeftThenRight(s, b);
  }

  /** Whitespace around a component does not matter. */
  lemma PaddedComponent(a: string, s: string, b: string)
    requires Blank(a) && Blank(b)
    ensures Component(a + s + b) == Component(s)
  {
    assert Unmarked(a + s + b) == Unmarked(s) by {
      TrimPadded(a, s, b);
    }
  }

  lemma {:induction false} TrimLeftSnoc(s: string, c: char)
    requires !IsSpace(c)
    ensures TrimLeft(s + [c]) == TrimLeft(s) + [c]
  {
    if s != "" {
      assert (s + [c])[1..] == s[1..] + [c];
      if IsSpace(s[0]) {
        TrimLeftSnoc(s[1..], c);
      }
    }
  }

  lemma {:induction false} TrimLeftTwice(s: string)
    ensures TrimLeft(TrimLeft(s)) == TrimLeft(s)
  {
    if s != "" && IsSpace(s[0]) {
      TrimLeftTwice(s[1..]);
    }
  }

  /** In front of a mark stands the trimmed number. */
  lemma MarkedNumber(s: string)
    ensures Unmarked(s + "'") == (TrimSpace(s), true)
  {
    TrimLeftSnoc(s, '\'');
    TrimLeftTwice(s);
    var t := TrimLeft(s) + "'";
    assert TrimRight(t) == t && t[..|t| - 1] == TrimLeft(s);
  }

  /** Whitespace between the number and the mark does not matter. */
  lemma PaddedMark(s: string, a: string)
    requires Blank(a)
    ensures Component(s + a + "'") == Component(s + "'")
  {
    MarkedNumber(s + a);
    MarkedNumber(s);
    TrimLeftThenRight(s, a);
  }

  predicate Solid(s: string) {
    forall i | 0 <= i < |s| :: !IsSpace(s[i])
  }

  lemma {:induction false} ScanSpace(s: string, base: nat, seen: Seen, acc: nat, i: nat)
    requires i < |s| && IsSpace(s[i]) && base <= 16
    ensures Scan(s, base, seen, acc).None?
    decreases |s|
  {
    if i > 0 {
      assert s[1..][i - 1] == s[i];
      if s[0] == '_' {
        ScanSpace(s[1..], base, Separator, acc, i - 1);
      } else {
        ScanSpace(s[1..], base, Digit, acc * base + DigitValue(s[0]), i - 1);
      }
    }
  }

  lemma NaturalSpace(s: string, i: nat)
    requires i < |s| && IsSpace(s[i])
    ensures Natural(s).None?
  {
    if s[0] != '0' {
      ScanSpace(s, 10, Start, 0, i);
    } else if s[1] in "bBoOxX" {
      assert s[2..][i - 2] == s[i];
      ScanSpace(s[2..], if s[1] in "bB" then 2 else if s[1] in "oO" then 8 else 16, Prefix, 0, i - 2);
    } else {
      assert s[1..][i - 1] == s[i];
      ScanSpace(s[1..], 8, Digit, 0, i - 1);
    }
  }

  /** Whitespace anywhere inside the number makes a component invalid. */
  lemma SpacedNumber(text: string)
    requires !Solid(Unmarked(text).0)
    ensures Component(text) == Err(InvalidComponent)
  {
    var s := Unmarked(text).0;
    var i :| 0 <= i < |s| && IsSpace(s[i]);
    if s[0] == '-' || s[0] == '+' {
      assert s[1..][i - 1] == s[i];
      NaturalSpace(s[1..], i - 1);
    } else {
      NaturalSpace(s, i);
    }
  }

  /** A text with all its whitespace taken out. */
  function Strip(s: string): string {
    if s == "" then "" else if IsSpace(s[0]) then Strip(s[1..]) else [s[0]] + Strip(s[1..])
  }

  lemma {:induction false} StripSnoc(s: string, c: char)
    ensures Strip(s + [c]) == if IsSpace(c) then Strip(s) else Strip(s) + [c]
  {
    if s == "" {
      assert (s + [c])[1..] == "";
    } else {
      assert (s + [c])[1..] == s[1..] + [c];
      StripSnoc(s[1..], c);
    }
  }

  lemma {:induction false} StripLeft(s: string)
    ensures Strip(TrimLeft(s)) == Strip(s)
  {
    if s != "" && IsSpace(s[0]) {
      StripLeft(s[1..]);
    }
  }

  lemma {:induction false} StripRight(s: string)
    ensures Strip(TrimRight(s)) == Strip(s)
  {
    if s != "" && IsSpace(s[|s| - 1]) {
      var n := |s| - 1;
      assert s == s[..n] + [s[n]];
      StripSnoc(s[..n], s[n]);
      StripRight(s[..n]);
    }
  }

  lemma StripTrimmed(s: string)
    ensures Strip(TrimSpace(s)) == Strip(s)
  {
    StripRight(TrimLeft(s));
    StripLeft(s);
  }

  lemma SolidTail(s: string)
    requires Solid(s) && s != ""
    ensures !IsSpace(s[0]) && Solid(s[1..])
  {
    var rest := s[1..];
    forall i | 0 <= i < |rest|
      ensures !IsSpace(rest[i])
    {
      assert rest[i] == s[i + 1];
    }
  }

  lemma {:induction false} StripSolid(s: string)
    requires Solid(s)
    ensures Strip(s) == s
  {
    if s != "" {
      SolidTail(s);
      StripSolid(s[1..]);
      assert s == [s[0]] + s[1..];
    }
  }

  lemma TrimSolid(s: string)
    requires Solid(s)
    ensures TrimSpace(s) == s
  {
    if s != "" {
      TrimNothing(s);
    }
  }

  lemma StripMarked(body: string)
    requires Solid(TrimSpace(body))
    ensures Unmarked(Strip(body + "'")) == (TrimSpace(body), true)
  {
    var number := TrimSpace(body);
    StripSnoc(body, '\'');
    StripTrimmed(body);
    StripSolid(number);
    MarkedNumber(number);
    TrimSolid(number);
  }

  lemma StripUnmarked(number: string)
    requires Solid(number) && !(number != "" && number[|number| - 1] == '\'')
    ensures Unmarked(Strip(number)) == (number, false)
  {
    StripSolid(number);
    TrimSolid(number);
  }

  /** Around a number without inner whitespace there is nothing to lose. */
  lemma StripAround(text: string)
    requires Solid(Unmarked(text).0)
    ensures Unmarked(Strip(text)) == Unmarked(text)
  {
    var core := TrimSpace(text);
    StripTrimmed(text);
    if core != "" && core[|core| - 1] == '\'' {
      var body := core[..|core| - 1];
      assert core == body + "'";
      StripMarked(body);
    } else {
      StripUnmarked(core);
    }
  }

  /** Exactly when whitespace is ignored: taking all of it out leaves the meaning alone if and only if
      none of it was inside the number, or the text is invalid without it too. */
  lemma WhitespaceIgnored(text: string)
    ensures Component(Strip(text)) == Component(text) <==>
            Solid(Unmarked(text).0) || Component(Strip(text)) == Err(InvalidComponent)
  {
    if Solid(Unmarked(text).0) {
      StripAround(text);
    } else {
      SpacedNumber(text);
    }
  }

  // ---- Whitespace in a whole path ----

  function StripAll(parts: seq<string>): seq<string> {
    if parts == [] then [] else [Strip(parts[0])] + StripAll(parts[1..])
  }

  lemma {:induction false} SplitStrip(s: string)
    ensures Split(Strip(s)) == StripAll(Split(s))
  {
    if s != "" {
      SplitStrip(s[1..]);
      var rest := Split(s[1..]);
      if s[0] == '/' {
        assert Strip(s)[1..] == Strip(s[1..]) && ([""] + rest)[1..] == rest;
      } else {
        StripFirst(s[0], rest);
        if !IsSpace(s[0]) {
          assert Strip(s)[1..] == Strip(s[1..]);
        }
      }
    }
  }

  lemma StripFirst(c: char, rest: seq<string>)
    requires rest != []
    ensures StripAll([[c] + rest[0]] + rest[1..]) ==
            [if IsSpace(c) then Strip(rest[0]) else [c] + Strip(rest[0])] + StripAll(rest[1..])
  {
    var parts := [[c] + rest[0]] + rest[1..];
    assert parts[1..] == rest[1..] && parts[0][1..] == rest[0];
  }

  /** The first component that does not read has whitespace inside its number. */
  predicate SpacedFirst(parts: seq<string>) {
    parts != [] && (!Solid(Unmarked(parts[0]).0) || (Component(parts[0]).Ok? && SpacedFirst(parts[1..])))
  }

  lemma StripOne(text: string)
    requires Solid(Unmarked(text).0)
    ensures Component(Strip(text)) == Component(text)
  {
    StripAround(text);
  }

  lemma {:induction false} StripComponents(parts: seq<string>)
    ensures Components(StripAll(parts)) == Components(parts) <==>
            !SpacedFirst(parts) || Components(StripAll(parts)) == Err(InvalidComponent)
  {
    if parts != [] {
      var bare := StripAll(parts);
      assert bare[0] == Strip(parts[0]) && bare[1..] == StripAll(parts[1..]);
      if Solid(Unmarked(parts[0]).0) {
        StripOne(parts[0]);
        StripComponents(parts[1..]);
        SameFirst(parts, bare);
      } else {
        SpacedNumber(parts[0]);
      }
    }
  }

  lemma SameFirst(parts: seq<string>, bare: seq<string>)
    requires parts != [] && bare != [] && Component(bare[0]) == Component(parts[0])
    ensures Components(bare) == Components(parts) <==> Component(parts[0]).Err? || Components(bare[1..]) == Components(parts[1..])
    ensures forall e :: Components(bare) == Err(e) <==>
                        Component(parts[0]) == Err(e) || (Component(parts[0]).Ok? && Components(bare[1..]) == Err(e))
  {
    var a, b := Components(parts[1..]), Components(bare[1..]);
    if Component(parts[0]).Ok? && a.Ok? && b.Ok? && Components(bare) == Components(parts) {
      assert a.value == Components(parts).value[1..] && b.value == Components(bare).value[1..];
    }
  }

  /** The prefix, too, is told by its characters other than whitespace. */
  lemma StripPrefix(s: string)
    ensures TrimSpace(Strip(s)) == "" <==> TrimSpace(s) == ""
    ensures TrimSpace(Strip(s)) == "m" <==> TrimSpace(s) == "m"
  {
    var core := TrimSpace(s);
    StripTrimmed(s);
    StripIsSolid(s);
    TrimSolid(Strip(s));
    TrimEnds(s);
    if core == "m" {
      StripSolid(core);
    } else if |core| == 1 {
      StripSolid(core);
    } else if core != "" {
      StripKeepsEnds(core);
    }
  }

  lemma {:induction false} StripIsSolid(s: string)
    ensures Solid(Strip(s))
  {
    if s != "" {
      StripIsSolid(s[1..]);
    }
  }

  lemma {:induction false} TrimRightEnds(s: string)
    ensures var t := TrimRight(s);
            t == "" || (!IsSpace(t[|t| - 1]) && s != "" && t[0] == s[0])
  {
    if s != "" && IsSpace(s[|s| - 1]) {
      TrimRightEnds(s[..|s| - 1]);
    }
  }

  lemma {:induction false} TrimLeftStart(s: string)
    ensures var t := TrimLeft(s); t == "" || !IsSpace(t[0])
  {
    if s != "" && IsSpace(s[0]) {
      TrimLeftStart(s[1..]);
    }
  }

  lemma TrimEnds(s: string)
    ensures var t := TrimSpace(s); t == "" || (!IsSpace(t[0]) && !IsSpace(t[|t| - 1]))
  {
    TrimLeftStart(s);
    TrimRightEnds(TrimLeft(s));
  }

  lemma StripKeepsEnds(s: string)
    requires |s| >= 2 && !IsSpace(s[0]) && !IsSpace(s[|s| - 1])
    ensures |Strip(s)| >= 2
  {
    var n := |s| - 1;
    assert s == s[..n] + [s[n]];
    StripSnoc(s[..n], s[n]);
    assert Strip(s[..n]) == [s[0]] + Strip(s[..n][1..]);
  }

  /** The components of a path, without the prefix of an absolute one; none for an ambiguous path. */
  function Read(text: string): seq<string> {
    var parts := Split(text);
    if TrimSpace(parts[0]) == "" then [] else if TrimSpace(parts[0]) == "m" then parts[1..] else parts
  }

  /** Exactly when whitespace in a path is ignored: unless the first component that does not read has
      whitespace inside its number, and the path would be a different one without it. */
  lemma PathWhitespaceIgnored(text: string)
    ensures Parsed(Strip(text)) == Parsed(text) <==> !SpacedFirst(Read(text)) || Parsed(Strip(text)) == Err(InvalidComponent)
  {
    var parts := Split(text);
    SplitStrip(text);
    StripPrefix(parts[0]);
    var bare := StripAll(parts);
    assert bare[0] == Strip(parts[0]) && bare[1..] == StripAll(parts[1..]);
    if TrimSpace(parts[0]) == "m" {
      StripComponents(parts[1..]);
    } else if TrimSpace(parts[0]) != "" {
      StripComponents(parts);
      SameRoot(Components(bare), Components(parts));
    }
  }

  lemma SameRoot(r: Result<Path>, s: Result<Path>)
    ensures After(DEFAULT_ROOT, r) == After(DEFAULT_ROOT, s) <==> r == s
  {
    if r.Ok? && s.Ok? {
      var n := |DEFAULT_ROOT|;
      assert (DEFAULT_ROOT + r.value)[n..] == r.value && (DEFAULT_ROOT + s.value)[n..] == s.value;
    }
  }

  /** Where it is not ignored. */
  lemma SpacedDigits()
    ensures Component("4 4") == Err(InvalidComponent) && Component(Strip("4 4")) == Ok(44)
    ensures Parsed("m/4 4") == Err(InvalidComponent) && Parsed(Strip("m/4 4")) == Ok([44])
  {
    TrimNothing("4 4");
    assert "4 4"[1..] == " 4" && " 4"[1..] == "4" && "4"[1..] == "";
    assert Strip("4") == "4" && Strip(" 4") == "4" && Strip("4 4") == "44";
    assert Decimal(4) == "4" && Decimal(44) == "44";
    ComponentReads(44);
    SpacedPath();
  }

  lemma OneComponent(text: string)
    requires '/' !in text
    ensures Parsed("m/" + text) == Components([text])
  {
    Absolute(text);
    SplitNone(text);
  }

  lemma SpacedPath()
    requires Component("4 4") == Err(InvalidComponent) && Strip("4 4") == "44" && Component("44") == Ok(44)
    ensures Parsed("m/4 4") == Err(InvalidComponent) && Parsed(Strip("m/4 4")) == Ok([44])
  {
    assert "m/4 4"[1..] == "/4 4" && "/4 4"[1..] == "4 4";
    assert Strip("/4 4") == "/44" && Strip("m/4 4") == "m/44";
    assert "m/" + "4 4" == "m/4 4" && "m/" + "44" == "m/44";
    OneComponent("4 4");
    OneComponent("44");
    assert ["44"][1..] == [] && [44] + [] == [44];
  }
}
