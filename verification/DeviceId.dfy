// Device identifiers: the `std::stoi` numerals used when filtering on DeviceID, and
// the "hex" or "hex/dec" form that an x86 GPU runtime reports.
module DeviceId {
  import opened Tokens
  import opened VplTypes

  // Value of a digit character, or 16 for anything that is not a hex digit.
  function DigitVal(c: char): (v: int)
    ensures 0 <= v <= 16
  {
    if '0' <= c <= '9' then c as int - '0' as int
    else if 'a' <= c <= 'f' then c as int - 'a' as int + 10
    else if 'A' <= c <= 'F' then c as int - 'A' as int + 10
    else 16
  }

  predicate IsDigit(c: char, base: int) { DigitVal(c) < base }

  predicate Numeral(s: string, base: int) { s != "" && forall i | 0 <= i < |s| :: IsDigit(s[i], base) }

  function Value(s: string, base: nat): nat {
    if s == "" then 0 else Value(s[..|s| - 1], base) * base + DigitVal(s[|s| - 1])
  }

  predicate IsSpace(c: char) {
    c == ' ' || c == '\t' || c == '\n' || c == '\r' || c == '\U{000B}' || c == '\U{000C}'
  }

  function SkipSpace(s: string): string {
    if s != "" && IsSpace(s[0]) then SkipSpace(s[1..]) else s
  }

  function DigitRun(s: string, base: int): string {
    if s != "" && IsDigit(s[0], base) then [s[0]] + DigitRun(s[1..], base) else ""
  }

  // std::stoi in base 10 or 16: leading blanks, one sign, an optional 0x, then the longest
  // run of digits; None where it throws (no digits, or outside the 32-bit signed range).
  function Stoi(s: string, base: nat): Option<int> {
    var body := SkipSpace(s);
    var negative := body != "" && body[0] == '-';
    var unsigned := if body != "" && (body[0] == '-' || body[0] == '+') then body[1..] else body;
    var prefixed := base == 16 && |unsigned| >= 3 && unsigned[0] == '0'
                    && (unsigned[1] == 'x' || unsigned[1] == 'X') && IsDigit(unsigned[2], 16);
    var digits := DigitRun(if prefixed then unsigned[2..] else unsigned, base);
    var n := if negative then -(Value(digits, base) as int) else Value(digits, base);
    if digits == "" || n < -0x8000_0000 || n >= 0x8000_0000 then None else Some(n)
  }

  datatype X86DeviceID = X86DeviceID(ok: bool, deviceID: u32, adapterIdx: u32)

  // regex "[0-9a-fA-F]+"
  predicate MatchesMin(s: string) { Numeral(s, 16) }

  // regex "[0-9a-fA-F]+/[0-9]+" (neither digit class contains the slash)
  predicate MatchesAll(s: string) {
    var h := FirstToken(s, '/');
    |h| < |s| && Numeral(h, 16) && Numeral(s[|h| + 1..], 10)
  }

  function RFind(s: string, c: char): (k: int)
    ensures -1 <= k < |s|
    ensures 0 <= k ==> s[k] == c && c !in s[k + 1..]
    ensures k == -1 ==> c !in s
  {
    if s == "" then -1
    else if s[|s| - 1] == c then |s| - 1
    else
      var k := RFind(s[..|s| - 1], c);
      assert s == s[..|s| - 1] + [s[|s| - 1]];
      k
  }

  function ParseDeviceIDx86(s: string): X86DeviceID {
    if MatchesAll(s) then Convert(Stoi(s, 16), Some(Stoi(s[RFind(s, '/') + 1..], 10)))
    else if MatchesMin(s) then Convert(Stoi(s, 16), None)
    else X86DeviceID(false, UNKNOWN_ID, UNKNOWN_ID)
  }

  // Both conversions may throw; the device id is already stored when the second one does.
  function Convert(device: Option<int>, adapter: Option<Option<int>>): X86DeviceID {
    if device.None? then X86DeviceID(false, UNKNOWN_ID, UNKNOWN_ID) else
      var deviceID: u32 := device.value % 0x1_0000_0000;
      if adapter.None? then X86DeviceID(true, deviceID, UNKNOWN_ID)
      else if adapter.value.None? then X86DeviceID(false, deviceID, UNKNOWN_ID)
      else X86DeviceID(true, deviceID, adapter.value.value % 0x1_0000_0000)
  }

  // ---- what the parser accepts -------------------------------------------------------

  lemma {:induction false} DigitRunStops(h: string, rest: string, base: nat)
    requires forall i | 0 <= i < |h| :: IsDigit(h[i], base)
    requires rest == "" || !IsDigit(rest[0], base)
    ensures DigitRun(h + rest, base) == h
  {
    if h == "" {
      assert h + rest == rest;
    } else {
      assert (h + rest)[1..] == h[1..] + rest;
      DigitRunStops(h[1..], rest, base);
    }
  }

  lemma StoiOfNumeral(h: string, rest: string, base: nat)
    requires base == 10 || base == 16
    requires Numeral(h, base)
    requires rest == "" || rest[0] == '/'
    ensures Stoi(h + rest, base) == if Value(h, base) < 0x8000_0000 then Some(Value(h, base)) else None
  {
    DigitRunStops(h, rest, base);
    assert (h + rest)[0] == h[0];
    assert |h + rest| >= 2 ==> (h + rest)[1] == if |h| >= 2 then h[1] else '/';
  }

  // A blank in front is ignored ...
  lemma StoiBlank(blank: char, s: string, base: nat)
    requires IsSpace(blank)
    ensures Stoi([blank] + s, base) == Stoi(s, base)
  {
    hide DigitRun, IsSpace, Value;
    assert ([blank] + s)[1..] == s;
  }

  lemma DigitsOnly(h: string, base: nat)
    requires (base == 10 || base == 16) && Numeral(h, base)
    ensures h != "" && SkipSpace(h) == h && DigitRun(h, base) == h && h[0] != '-' && h[0] != '+'
    ensures |h| >= 2 ==> h[1] != 'x' && h[1] != 'X'
  {
    DigitRunStops(h, "", base);
    assert h + "" == h && IsDigit(h[0], base) && (|h| >= 2 ==> IsDigit(h[1], base));
  }

  // ... and so is a plus sign; a minus sign negates ...
  lemma StoiSigned(h: string, base: nat)
    requires (base == 10 || base == 16) && Numeral(h, base)
    ensures Stoi("+" + h, base) == Stoi(h, base) == if Value(h, base) < 0x8000_0000 then Some(Value(h, base)) else None
    ensures Stoi("-" + h, base) == if Value(h, base) <= 0x8000_0000 then Some(-(Value(h, base) as int)) else None
  {
    hide DigitRun, Value, Numeral;
    DigitsOnly(h, base);
    assert ("+" + h)[1..] == h && ("-" + h)[1..] == h;
    assert SkipSpace("+" + h) == "+" + h && SkipSpace("-" + h) == "-" + h;
  }

  // ... and a hexadecimal number may be written with 0x in front.
  lemma StoiPrefixed(h: string)
    requires Numeral(h, 16)
    ensures Stoi("0x" + h, 16) == Stoi(h, 16) == Stoi("0X" + h, 16)
  {
    hide DigitRun, Value;
    DigitsOnly(h, 16);
    assert ("0x" + h)[2..] == h && ("0X" + h)[2..] == h && ("0x" + h)[2] == h[0] == ("0X" + h)[2];
    assert SkipSpace("0x" + h) == "0x" + h && SkipSpace("0X" + h) == "0X" + h;
  }

  lemma {:induction false} RFindBeforeLast(p: string, c: char, rest: string)
    requires c !in rest
    ensures RFind(p + [c] + rest, c) == |p|
  {
    var s := p + [c] + rest;
    if rest != "" {
      var init := rest[..|rest| - 1];
      assert s[..|s| - 1] == p + [c] + init;
      assert s[|s| - 1] == rest[|rest| - 1];
      RFindBeforeLast(p, c, init);
    }
  }

  ghost predicate Spells(s: string, h: string, a: string) {
    s == h + "/" + a && Numeral(h, 16) && Numeral(a, 10)
  }

  ghost predicate SpellsInRange(s: string, h: string, a: string) {
    Spells(s, h, a) && Value(h, 16) < 0x8000_0000 && Value(a, 10) < 0x8000_0000
  }

  lemma HexHasNoSlash(s: string, k: nat)
    requires Numeral(s, 16) && k < |s|
    ensures s[k] != '/'
  {
    assert IsDigit(s[k], 16);
  }

  lemma ParseOfHex(s: string)
    requires Numeral(s, 16)
    ensures ParseDeviceIDx86(s) ==
            if Value(s, 16) < 0x8000_0000 then X86DeviceID(true, Value(s, 16), UNKNOWN_ID)
            else X86DeviceID(false, UNKNOWN_ID, UNKNOWN_ID)
  {
    hide Stoi, Value;
    var t := FirstToken(s, '/');
    if |t| < |s| { HexHasNoSlash(s, |t|); }
    assert s + "" == s;
    StoiOfNumeral(s, "", 16);
  }

  lemma MatchesSpelled(s: string, h: string, a: string)
    requires Spells(s, h, a)
    ensures MatchesAll(s) && !MatchesMin(s) && s[RFind(s, '/') + 1..] == a
  {
    assert s[..|h|] == h && s[|h|] == '/' && s[|h| + 1..] == a;
    if MatchesMin(s) { HexHasNoSlash(s, |h|); }
    assert '/' !in h by {
      forall k | 0 <= k < |h| ensures h[k] != '/' { HexHasNoSlash(h, k); }
    }
    FirstTokenOf(h, a, '/');
    assert '/' !in a by {
      forall k | 0 <= k < |a| ensures a[k] != '/' { assert IsDigit(a[k], 10); }
    }
    RFindBeforeLast(h, '/', a);
  }

  lemma ParseOfHexDec(s: string, h: string, a: string)
    requires Spells(s, h, a)
    ensures ParseDeviceIDx86(s) ==
            if Value(h, 16) >= 0x8000_0000 then X86DeviceID(false, UNKNOWN_ID, UNKNOWN_ID)
            else if Value(a, 10) >= 0x8000_0000 then X86DeviceID(false, Value(h, 16), UNKNOWN_ID)
            else X86DeviceID(true, Value(h, 16), Value(a, 10))
  {
    hide MatchesAll, MatchesMin, Stoi, RFind, Numeral;
    MatchesSpelled(s, h, a);
    StoiOfParts(s, h, a);
    assert 0 <= Value(h, 16) && 0 <= Value(a, 10);
  }

  lemma StoiOfParts(s: string, h: string, a: string)
    requires Spells(s, h, a)
    ensures Stoi(s, 16) == if Value(h, 16) < 0x8000_0000 then Some(Value(h, 16)) else None
    ensures Stoi(a, 10) == if Value(a, 10) < 0x8000_0000 then Some(Value(a, 10)) else None
  {
    assert s == h + ("/" + a) by { assert h + "/" + a == h + ("/" + a); }
    StoiOfNumeral(h, "/" + a, 16);
    assert a + "" == a;
    StoiOfNumeral(a, "", 10);
  }

  // The parser accepts exactly a hex numeral below 2^31, and such a numeral followed by one
  // slash and a decimal numeral below 2^31; every other string is refused.
  lemma ParseAcceptsExactly(s: string)
    ensures ParseDeviceIDx86(s).ok <==>
            (Numeral(s, 16) && Value(s, 16) < 0x8000_0000) || exists h, a :: SpellsInRange(s, h, a)
  {
    if Numeral(s, 16) {
      ParseOfHex(s);
      forall h, a ensures !SpellsInRange(s, h, a) {
        if SpellsInRange(s, h, a) { MatchesSpelled(s, h, a); }
      }
    } else if h, a :| Spells(s, h, a) {
      ParseOfHexDec(s, h, a);
      forall h', a' | SpellsInRange(s, h', a') ensures ParseDeviceIDx86(s).ok {
        ParseOfHexDec(s, h', a');
      }
      assert ParseDeviceIDx86(s).ok ==> SpellsInRange(s, h, a);
    } else if MatchesAll(s) {
      var t := FirstToken(s, '/');
      assert s == t + "/" + s[|t| + 1..];
      assert Spells(s, t, s[|t| + 1..]);
      assert false;
    }
  }

  // The strings accepted, and the adapter number each one denotes.
  ghost predicate SpelledX86(s: string) {
    (Numeral(s, 16) && Value(s, 16) < 0x8000_0000) || exists h, a :: SpellsInRange(s, h, a)
  }

  ghost predicate DenotesAdapter(s: string, adapterIdx: u32) {
    if Numeral(s, 16) then adapterIdx == UNKNOWN_ID
    else exists h, a :: SpellsInRange(s, h, a) && adapterIdx == Value(a, 10)
  }

  lemma ParseMeaning(s: string)
    ensures ParseDeviceIDx86(s).ok <==> SpelledX86(s)
    ensures SpelledX86(s) ==> DenotesAdapter(s, ParseDeviceIDx86(s).adapterIdx)
  {
    hide ParseDeviceIDx86, Numeral, Value, Spells;
    ParseAcceptsExactly(s);
    if SpelledX86(s) {
      if Numeral(s, 16) {
        ParseOfHex(s);
      } else {
        var h, a :| SpellsInRange(s, h, a);
        ParseOfHexDec(s, h, a);
      }
    }
  }

  // ---- printing and spelling -----------------------------------------------------------

  function DigitChar(v: nat): (c: char)
    requires v < 16
    ensures DigitVal(c) == v
  {
    if v < 10 then ('0' as int + v) as char else ('a' as int + v - 10) as char
  }

  function Print(n: nat, base: nat): string
    requires 2 <= base <= 16
    decreases n
  {
    if n < base then [DigitChar(n)] else Print(n / base, base) + [DigitChar(n % base)]
  }

  lemma {:induction false} PrintDenotes(n: nat, base: nat)
    requires base == 10 || base == 16
    ensures Numeral(Print(n, base), base) && Value(Print(n, base), base) == n
    decreases n
  {
    if n < base {
      assert Print(n, base)[..0] == "";
    } else {
      PrintDenotes(n / base, base);
      var p := Print(n / base, base);
      assert Print(n, base)[..|p|] == p;
      if base == 10 {
        assert n == n / 10 * 10 + n % 10;
      } else {
        assert n == n / 16 * 16 + n % 16;
      }
    }
  }

  // The parser inverts both printers on every value below 2^31.
  lemma ParseInvertsPrint(n: nat, m: nat)
    requires n < 0x8000_0000 && m < 0x8000_0000
    ensures ParseDeviceIDx86(Print(n, 16)) == X86DeviceID(true, n, UNKNOWN_ID)
    ensures ParseDeviceIDx86(Print(n, 16) + "/" + Print(m, 10)) == X86DeviceID(true, n, m)
  {
    PrintDenotes(n, 16);
    PrintDenotes(m, 10);
    ParseOfHex(Print(n, 16));
    ParseOfHexDec(Print(n, 16) + "/" + Print(m, 10), Print(n, 16), Print(m, 10));
  }

  lemma {:induction false} ValueOfSpelling(zeros: string, h: string, g: string, base: nat)
    requires forall i | 0 <= i < |zeros| :: zeros[i] == '0'
    requires |h| == |g| && forall i | 0 <= i < |h| :: DigitVal(h[i]) == DigitVal(g[i])
    ensures Value(zeros + g, base) == Value(h, base)
    decreases |h|, |zeros|
  {
    if h != "" {
      assert (zeros + g)[..|zeros + g| - 1] == zeros + g[..|g| - 1];
      ValueOfSpelling(zeros, h[..|h| - 1], g[..|g| - 1], base);
    } else if zeros != "" {
      assert zeros + g == zeros;
      var init := zeros[..|zeros| - 1];
      assert init + "" == init;
      ValueOfSpelling(init, "", "", base);
    }
  }

  // Letter case and leading zeros of the hex part make no difference to the result.
  lemma ParseIgnoresSpelling(zeros: string, h: string, g: string, a: string)
    requires forall i | 0 <= i < |zeros| :: zeros[i] == '0'
    requires Numeral(h, 16) && Numeral(a, 10)
    requires |h| == |g| && forall i | 0 <= i < |h| :: DigitVal(h[i]) == DigitVal(g[i])
    ensures ParseDeviceIDx86(zeros + g) == ParseDeviceIDx86(h)
    ensures ParseDeviceIDx86(zeros + g + "/" + a) == ParseDeviceIDx86(h + "/" + a)
  {
    ValueOfSpelling(zeros, h, g, 16);
    assert Numeral(zeros + g, 16) by { assert DigitVal('0') == 0; }
    ParseOfHex(zeros + g);
    ParseOfHex(h);
    ParseOfHexDec(zeros + g + "/" + a, zeros + g, a);
    ParseOfHexDec(h + "/" + a, h, a);
  }
}
