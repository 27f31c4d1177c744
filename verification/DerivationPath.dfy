/**
 Parsing and printing hierarchical deterministic wallet paths, as in hd.go; the form of
 paths is that of BIP-32 and BIP-44.
 */
module DerivationPath {
  const HARDENED: nat := 0x8000_0000
  const MAX_UINT32: nat := 0xFFFF_FFFF

  type uint32 = n: nat | n <= MAX_UINT32

  datatype Error = Ambiguous | Empty | Invalid(component: string) | OutOfRange(component: string)

  datatype Result<T> = Ok(value: T) | Err(error: Error)

  datatype Option<T> = None | Some(value: T)

  const DEFAULT_ROOT: seq<uint32> := [HARDENED + 44, HARDENED + 60, HARDENED, 0]

  // ------------------------------------------------------------------- strings

  /** strings.Split at slashes; there is always a first part. */
  function Split(s: string): (parts: seq<string>)
    ensures |parts| > 0
  {
    if s == [] then [[]]
    else if s[0] == '/' then [[]] + Split(s[1..])
    else [[s[0]] + Split(s[1..])[0]] + Split(s[1..])[1..]
  }

  /** unicode.IsSpace. */
  predicate IsSpace(c: char) {
    || '\t' <= c <= '\r' || c == ' ' || c == '\U{85}' || c == '\U{A0}' || c == '\U{1680}'
    || '\U{2000}' <= c <= '\U{200A}'
    || c == '\U{2028}' || c == '\U{2029}' || c == '\U{202F}' || c == '\U{205F}' || c == '\U{3000}'
  }

  function TrimLeft(s: string): string { if s != [] && IsSpace(s[0]) then TrimLeft(s[1..]) else s }

  function TrimRight(s: string): string { if s != [] && IsSpace(s[|s| - 1]) then TrimRight(s[..|s| - 1]) else s }

  function TrimSpace(s: string): string { TrimRight(TrimLeft(s)) }

  // ------------------------------------------------------------------- numbers

  function Digit(c: char): nat {
    if '0' <= c <= '9' then (c - '0') as nat
    else if 'a' <= c <= 'z' then (c - 'a') as nat + 10
    else if 'A' <= c <= 'Z' then (c - 'A') as nat + 10
    else 36
  }

  /** One or more digits of the base, and nothing else. */
  function Digits(s: string, base: nat): Option<nat> {
    if s == [] || Digit(s[|s| - 1]) >= base then None
    else if |s| == 1 then Some(Digit(s[0]))
    else match Digits(s[..|s| - 1], base)
      case None => None
      case Some(n) => Some(n * base + Digit(s[|s| - 1]))
  }

  /** An unsigned number, with the base given by its prefix. */
  function Unsigned(s: string): Option<nat> {
    if |s| < 2 || s[0] != '0' then Digits(s, 10)
    else if s[1] == 'x' || s[1] == 'X' then Digits(s[2..], 16)
    else if s[1] == 'b' || s[1] == 'B' then Digits(s[2..], 2)
    else Digits(s[1..], 8)
  }

  /** big.Int.SetString with base 0. */
  function SetString(s: string): Option<int> {
    if s != [] && (s[0] == '-' || s[0] == '+') then
      match Unsigned(s[1..])
      case None => None
      case Some(n) => var v: int := n; Some(if s[0] == '-' then -v else v)
    else
      match Unsigned(s)
      case None => None
      case Some(n) => Some(n)
  }

  /** The decimal form. */
  function Decimal(n: nat): string { if n < 10 then ['0' + n as char] else Decimal(n / 10) + ['0' + (n % 10) as char] }

  // ---------------------------------------------------------------- components

  ghost predicate IsHardened(c: string) { c != [] && c[|c| - 1] == '\'' }

  /** One component: a number, or a number below the hardened limit and a quote. */
  ghost function ParseComponent(raw: string): Result<uint32> {
    var c := TrimSpace(raw);
    var base := if IsHardened(c) then HARDENED else 0;
    var body := if IsHardened(c) then TrimSpace(c[..|c| - 1]) else c;
    match SetString(body)
    case None => Err(Invalid(body))
    case Some(n) => if n < 0 || n > MAX_UINT32 - base then Err(OutOfRange(body)) else Ok(base + n)
  }

  ghost function ParseAll(components: seq<string>): Result<seq<uint32>> {
    if components == [] then Ok([])
    else match ParseAll(components[..|components| - 1])
      case Err(e) => Err(e)
      case Ok(path) =>
        match ParseComponent(components[|components| - 1])
        case Err(e) => Err(e)
        case Ok(value) => Ok(path + [value])
  }

  ghost function Parse(path: string): Result<seq<uint32>> {
    var components := Split(path);
    if TrimSpace(components[0]) == [] then Err(Ambiguous)
    else if TrimSpace(components[0]) == "m" then (if |components| == 1 then Err(Empty) else ParseAll(components[1..]))
    else match ParseAll(components)
      case Err(e) => Err(e)
      case Ok(rest) => Ok(DEFAULT_ROOT + rest)
  }

  function PrintComponent(c: uint32): string {
    if c >= HARDENED then "/" + Decimal(c - HARDENED) + "'" else "/" + Decimal(c)
  }

  function PrintAll(path: seq<uint32>): string {
    if path == [] then [] else PrintAll(path[..|path| - 1]) + PrintComponent(path[|path| - 1])
  }

  function Print(path: seq<uint32>): string { "m" + PrintAll(path) }

  // -------------------------------------------------------------------- methods

  /** ParseDerivationPath: the components one after the other, stopping at the first bad one. */
  method ParseDerivationPath(path: string) returns (r: Result<seq<uint32>>)
    ensures r == Parse(path)
  {
    hide ParseComponent;
    hide Split;
    hide TrimSpace;
    var result: seq<uint32> := [];
    var components := Split(path);
    if TrimSpace(components[0]) == [] { return Err(Ambiguous); }
    if TrimSpace(components[0]) == "m" { components := components[1..]; } else { result := DEFAULT_ROOT; }
    if |components| == 0 { return Err(Empty); }
    ghost var root := result;
    for i := 0 to |components|
      invariant ParseAll(components[..i]).Ok? && result == root + ParseAll(components[..i]).value
    {
      assert components[..i + 1][..i] == components[..i];
      var value := Component(components[i]);
      if value.Err? {
        ParseStops(components, i);
        return Err(value.error);
      }
      result := result + [value.value];
    }
    assert components[..|components|] == components;
    assert root == [] ==> result == ParseAll(components).value;
    r := Ok(result);
  }

  /** One turn of its loop. */
  method Component(raw: string) returns (r: Result<uint32>)
    ensures r == ParseComponent(raw)
  {
    var component := TrimSpace(raw);
    var value: uint32 := 0;
    if component != [] && component[|component| - 1] == '\'' {
      value := HARDENED;
      component := TrimSpace(component[..|component| - 1]);
    }
    var bigval := SetString(component);
    if bigval == None { return Err(Invalid(component)); }
    var max := MAX_UINT32 - value;
    if bigval.value < 0 || bigval.value > max { return Err(OutOfRange(component)); }
    value := value + bigval.value;
    r := Ok(value);
  }

  lemma {:induction false} ParseStops(components: seq<string>, i: nat)
    requires i < |components| && ParseAll(components[..i]).Ok? && ParseComponent(components[i]).Err?
    ensures ParseAll(components) == Err(ParseComponent(components[i]).error)
    decreases |components|
  {
    hide ParseComponent;
    var k := |components| - 1;
    if i < k {
      assert components[..k][..i] == components[..i];
      ParseStops(components[..k], i);
    }
  }

  /** DerivationPath.String. */
  method String(path: seq<uint32>) returns (result: string)
    ensures result == Print(path)
  {
    result := "m";
    assert path[..0] == [] && PrintAll([]) == [];
    hide PrintAll;
    hide Decimal;
    for i := 0 to |path|
      invariant result == "m" + PrintAll(path[..i])
    {
      var component: nat := path[i];
      var hardened := false;
      if component >= HARDENED {
        component := component - HARDENED;
        hardened := true;
      }
      var part := "/" + Decimal(component);
      if hardened { part := part + "'"; }
      assert part == PrintComponent(path[i]);
      result := result + part;
      PrintNext(path, i);
    }
    assert path[..|path|] == path;
  }

  lemma PrintNext(path: seq<uint32>, i: nat)
    requires i < |path|
    ensures "m" + PrintAll(path[..i + 1]) == "m" + PrintAll(path[..i]) + PrintComponent(path[i])
  {
    assert path[..i + 1][..i] == path[..i];
  }

  // ----------------------------------------------------------------- round trip

  predicate IsDecimal(c: char) { '0' <= c <= '9' }

  /** Printed numbers are digits, without a leading zero, and read back as themselves. */
  lemma {:induction false} DecimalReads(n: nat)
    ensures var s := Decimal(n); |s| > 0 && (forall i :: 0 <= i < |s| ==> IsDecimal(s[i])) && Digits(s, 10) == Some(n)
    ensures Decimal(n)[0] == '0' ==> n == 0
    ensures n == 0 ==> Decimal(n) == "0"
  {
    if n >= 10 {
      DecimalReads(n / 10);
      var s := Decimal(n);
      assert s[..|s| - 1] == Decimal(n / 10);
    }
  }

  lemma DecimalSets(n: nat)
    ensures SetString(Decimal(n)) == Some(n)
  {
    DecimalReads(n);
  }

  lemma TrimKeeps(s: string)
    requires s == [] || (!IsSpace(s[0]) && !IsSpace(s[|s| - 1]))
    ensures TrimSpace(s) == s
  {
  }

  lemma ComponentReads(c: uint32)
    ensures PrintComponent(c) != [] && ParseComponent(PrintComponent(c)[1..]) == Ok(c) && '/' !in PrintComponent(c)[1..]
      && PrintComponent(c)[0] == '/'
  {
    var n := if c >= HARDENED then c - HARDENED else c;
    ComponentRange(n);
    if c >= HARDENED {
      assert PrintComponent(c)[1..] == Decimal(n) + "'";
    } else {
      assert PrintComponent(c)[1..] == Decimal(n);
    }
  }

  /**
   A number is accepted plain up to the 32-bit limit and hardened below the hardened limit, and then is what was
   printed.
   */
  lemma ComponentRange(n: nat)
    ensures '/' !in Decimal(n) && Decimal(n) != []
    ensures ParseComponent(Decimal(n)) == if n <= MAX_UINT32 then Ok(n) else Err(OutOfRange(Decimal(n)))
    ensures ParseComponent(Decimal(n) + "'") == if n < HARDENED then Ok(n + HARDENED) else Err(OutOfRange(Decimal(n)))
  {
    DecimalReads(n);
    DecimalSets(n);
    hide SetString;
    var s, h := Decimal(n), Decimal(n) + "'";
    assert forall i :: 0 <= i < |s| ==> !IsSpace(s[i]) && s[i] != '/' && s[i] != '\'';
    hide Decimal;
    assert h[..|h| - 1] == s;
    TrimKeeps(s);
    TrimKeeps(h);
    hide TrimSpace;
  }

  lemma {:induction false} SplitOne(s: string)
    requires '/' !in s
    ensures Split(s) == [s]
  {
    if s != [] {
      SplitOne(s[1..]);
      assert [s[0]] + s[1..] == s;
    }
  }

  lemma {:induction false} SplitAppend(s: string, last: string)
    requires '/' !in last
    ensures Split(s + "/" + last) == Split(s) + [last]
  {
    var t := s + "/" + last;
    if s == [] {
      assert t[1..] == last;
      SplitOne(last);
    } else {
      assert t[1..] == s[1..] + "/" + last;
      SplitAppend(s[1..], last);
    }
  }

  lemma {:induction false} PrintedSplits(path: seq<uint32>)
    ensures var parts := Split(Print(path));
      |parts| == |path| + 1 && parts[0] == "m" && ParseAll(parts[1..]) == Ok(path)
  {
    hide Split;
    hide Print;
    hide ParseAll;
    if path == [] {
      PrintedNone();
    } else {
      var k := |path| - 1;
      PrintedSplits(path[..k]);
      PrintedMore(path[..k], path[k]);
      hide *;
      assert path == path[..k] + [path[k]];
    }
  }

  lemma PrintedNone()
    ensures var parts := Split(Print([])); |parts| == 1 && parts[0] == "m" && ParseAll(parts[1..]) == Ok([])
  {
    SplitOne("m");
    hide Split;
    assert Print([]) == "m";
  }

  lemma PrintedMore(path: seq<uint32>, c: uint32)
    requires var parts := Split(Print(path));
      |parts| == |path| + 1 && parts[0] == "m" && ParseAll(parts[1..]) == Ok(path)
    ensures var parts := Split(Print(path + [c]));
      |parts| == |path| + 2 && parts[0] == "m" && ParseAll(parts[1..]) == Ok(path + [c])
  {
    hide ParseComponent;
    hide PrintComponent;
    hide Split;
    ComponentReads(c);
    var last := PrintComponent(c)[1..];
    assert (path + [c])[..|path|] == path;
    assert PrintComponent(c) == "/" + last;
    assert Print(path + [c]) == Print(path) + "/" + last;
    SplitAppend(Print(path), last);
    var before, parts := Split(Print(path)), Split(Print(path + [c]));
    assert parts == before + [last] && parts[1..] == before[1..] + [last];
    assert parts[1..][..|path|] == before[1..];
  }

  /** Parsing the printed form gives the path back, exactly if it is not empty. */
  lemma RoundTrip(path: seq<uint32>)
    ensures Parse(Print(path)) == Ok(path) <==> path != []
  {
    PrintedSplits(path);
    TrimKeeps("m");
  }

  /** A relative path is the absolute one below the default root. */
  lemma RelativePath(path: string)
    requires var first := TrimSpace(Split(path)[0]); first != [] && first != "m"
    ensures Parse(path) == match Parse("m/" + path)
      case Err(e) => Err(e)
      case Ok(rest) => Ok(DEFAULT_ROOT + rest)
  {
    var absolute := "m/" + path;
    assert absolute[1..] == "/" + path && absolute[1..][1..] == path;
    assert Split(absolute[1..]) == [[]] + Split(path);
    assert Split(absolute) == [['m'] + Split(absolute[1..])[0]] + Split(absolute[1..])[1..];
    assert ['m'] + Split(absolute[1..])[0] == "m" && Split(absolute[1..])[1..] == Split(path);
    hide Split;
    assert Split(absolute) == ["m"] + Split(path);
    TrimKeeps("m");
    hide TrimSpace;
    assert Split(absolute)[1..] == Split(path);
  }

  /** Whitespace around a component is ignored. */
  lemma {:induction false} SpacesIgnored(before: string, c: string, after: string)
    requires forall i :: 0 <= i < |before| ==> IsSpace(before[i])
    requires forall i :: 0 <= i < |after| ==> IsSpace(after[i])
    ensures TrimSpace(before + c + after) == TrimSpace(c)
      && ParseComponent(before + c + after) == ParseComponent(c)
    decreases |before| + |after|
  {
    hide ParseComponent;
    hide IsSpace;
    var s := before + c + after;
    if before != [] {
      assert s[1..] == before[1..] + c + after && s[0] == before[0];
      SpacesIgnored(before[1..], c, after);
      hide TrimRight;
      assert TrimSpace(s) == TrimSpace(s[1..]);
    } else if after != [] {
      assert s[..|s| - 1] == before + c + after[..|after| - 1] && s[|s| - 1] == after[|after| - 1];
      SpacesIgnored(before, c, after[..|after| - 1]);
      LastTrimmed(s);
    } else {
      assert s == c;
    }
    TrimDecides(s, c);
  }

  lemma TrimDecides(s: string, c: string)
    ensures TrimSpace(s) == TrimSpace(c) ==> ParseComponent(s) == ParseComponent(c)
  {
    hide TrimSpace;
    hide SetString;
  }

  /** A space at the end does not matter. */
  lemma LastTrimmed(s: string)
    requires s != [] && IsSpace(s[|s| - 1])
    ensures TrimSpace(s) == TrimSpace(s[..|s| - 1])
  {
    LastStays(s);
    hide IsSpace;
    hide TrimLeft;
  }

  lemma {:induction false} LastStays(s: string)
    requires s != [] && IsSpace(s[|s| - 1])
    ensures var t := TrimLeft(s);
      if t == [] then TrimLeft(s[..|s| - 1]) == []
      else t[|t| - 1] == s[|s| - 1] && t[..|t| - 1] == TrimLeft(s[..|s| - 1])
  {
    hide IsSpace;
    if IsSpace(s[0]) && |s| > 1 {
      LastStays(s[1..]);
      assert s[1..][..|s| - 2] == s[..|s| - 1][1..];
    }
  }

  lemma {:induction false} ParseLength(components: seq<string>)
    ensures ParseAll(components).Ok? ==> |ParseAll(components).value| == |components|
  {
    if components != [] { ParseLength(components[..|components| - 1]); }
  }

  /** Whatever was accepted, printing and parsing it again changes nothing. */
  lemma ParsePrintParse(s: string)
    requires Parse(s).Ok?
    ensures Parse(s).value != [] && Parse(Print(Parse(s).value)) == Parse(s)
  {
    ParseLength(Split(s));
    ParseLength(Split(s)[1..]);
    RoundTrip(Parse(s).value);
  }
}
