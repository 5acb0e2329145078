/**
The time strings of ssh configuration files ("1h30m", "600"), as the TIME FORMATS section of
sshd_config(5) defines them, with units in either case and results below 2^32 seconds.
*/
module SshTime {
  import opened Common

  const MAX_UINT32: nat := 0xFFFF_FFFF

  // ---------------------------------------------------------------- the format

  predicate IsDigit(c: char) {
    '0' <= c <= '9'
  }

  predicate IsUnit(c: char) {
    match c
    case 's' => true case 'S' => true
    case 'm' => true case 'M' => true
    case 'h' => true case 'H' => true
    case 'd' => true case 'D' => true
    case 'w' => true case 'W' => true
    case _ => false
  }

  function Seconds(unit: char): (n: nat)
    ensures 1 <= n <= 604800
  {
    match unit
    case 'm' => 60 case 'M' => 60
    case 'h' => 60 * 60 case 'H' => 60 * 60
    case 'd' => 24 * 60 * 60 case 'D' => 24 * 60 * 60
    case 'w' => 7 * 24 * 60 * 60 case 'W' => 7 * 24 * 60 * 60
    case _ => 1
  }

  /** Written out unit by unit, so that every product is by a constant. */
  function InSeconds(value: nat, unit: char): (seconds: nat)
    ensures seconds >= value
  {
    match unit
    case 'm' => 60 * value case 'M' => 60 * value
    case 'h' => 3600 * value case 'H' => 3600 * value
    case 'd' => 86400 * value case 'D' => 86400 * value
    case 'w' => 604800 * value case 'W' => 604800 * value
    case _ => value
  }

  lemma InSecondsIsProduct(value: nat, unit: char)
    ensures InSeconds(value, unit) == value * Seconds(unit)
  {
  }

  function Digit(c: char): nat {
    if IsDigit(c) then c as int - '0' as int else 0
  }

  function Decimal(digits: string): nat {
    if digits == "" then 0
    else 10 * Decimal(digits[..|digits| - 1]) + Digit(digits[|digits| - 1])
  }

  /** A number with its unit; seconds are meant where the unit is missing. */
  datatype Group = Group(digits: string, unit: Option<char>)

  predicate IsGroup(g: Group) {
    && g.digits != ""
    && (forall i :: 0 <= i < |g.digits| ==> IsDigit(g.digits[i]))
    && (g.unit.Some? ==> IsUnit(g.unit.value))
  }

  function Value(g: Group): nat {
    if g.unit.Some? then InSeconds(Decimal(g.digits), g.unit.value) else Decimal(g.digits)
  }

  function Text(g: Group): string {
    g.digits + if g.unit.Some? then [g.unit.value] else ""
  }

  function Render(gs: seq<Group>): string {
    if gs == [] then "" else Text(gs[0]) + Render(gs[1..])
  }

  /** Groups of which only the last may lack its unit. */
  predicate WellFormed(gs: seq<Group>) {
    && (forall i :: 0 <= i < |gs| ==> IsGroup(gs[i]))
    && (forall i :: 0 <= i < |gs| - 1 ==> gs[i].unit.Some?)
  }

  function Total(gs: seq<Group>): nat {
    if gs == [] then 0 else Value(gs[0]) + Total(gs[1..])
  }

  /** The string denotes this many seconds. */
  ghost predicate Denotes(str: string, seconds: nat) {
    exists gs :: gs != [] && WellFormed(gs) && Render(gs) == str && Total(gs) == seconds
  }

  // ---------------------------------------------------------------- reading groups

  /** Where the digits that start at `i` end. */
  function DigitEnd(s: string, i: nat): (end: nat)
    requires i <= |s|
    ensures i <= end <= |s|
    ensures forall k :: i <= k < end ==> IsDigit(s[k])
    ensures end < |s| ==> !IsDigit(s[end])
    decreases |s| - i
  {
    if i == |s| || !IsDigit(s[i]) then i else DigitEnd(s, i + 1)
  }

  /** The end of the group that starts at `i`, and its value, in exact arithmetic. */
  function GroupAt(s: string, i: nat): (r: Option<(nat, nat)>)
    requires i <= |s|
    ensures r.Some? ==> i < r.value.0 <= |s|
  {
    var end := DigitEnd(s, i);
    if end == i then None
    else if end == |s| then Some((end, Decimal(s[i..end])))
    else if IsUnit(s[end]) then Some((end + 1, InSeconds(Decimal(s[i..end]), s[end])))
    else None
  }

  /** The exact number of seconds from `i` on, without regard to the size of the result. */
  function Read(s: string, i: nat): Option<nat>
    requires i <= |s|
    decreases |s| - i
  {
    if i == |s| then Some(0)
    else
      match GroupAt(s, i)
      case None => None
      case Some((end, value)) =>
        match Read(s, end)
        case None => None
        case Some(rest) => Some(value + rest)
  }

  lemma ConsGroup(g: Group, gs: seq<Group>)
    requires IsGroup(g) && WellFormed(gs) && (g.unit.Some? || gs == [])
    ensures WellFormed([g] + gs)
    ensures Render([g] + gs) == Text(g) + Render(gs)
    ensures Total([g] + gs) == Value(g) + Total(gs)
  {
    var all := [g] + gs;
    assert all[1..] == gs;
    assert forall i :: 0 <= i < |all| ==> all[i] == if i == 0 then g else gs[i - 1];
  }

  /** A group can be read exactly if it is written there, with all its digits. */
  lemma GroupAtMeans(s: string, i: nat) returns (g: Group)
    requires i <= |s| && GroupAt(s, i).Some?
    ensures var (end, value) := GroupAt(s, i).value;
            && IsGroup(g) && Text(g) == s[i..end] && Value(g) == value
            && (g.unit.None? ==> end == |s|)
  {
    var end := DigitEnd(s, i);
    g := Group(s[i..end], if end == |s| then None else Some(s[end]));
    if end < |s| {
      assert s[i..end + 1] == s[i..end] + [s[end]];
    }
  }

  lemma {:induction false} ReadIsSound(s: string, i: nat) returns (gs: seq<Group>)
    requires i <= |s| && Read(s, i).Some?
    ensures WellFormed(gs) && Render(gs) == s[i..] && Total(gs) == Read(s, i).value
    ensures gs == [] ==> i == |s|
    decreases |s| - i
  {
    gs := [];
    if i < |s| {
      var g := GroupAtMeans(s, i);
      var end := GroupAt(s, i).value.0;
      var rest := ReadIsSound(s, end);
      assert end == |s| ==> rest == [] by {
        if rest != [] {
          assert IsGroup(rest[0]);
        }
      }
      ConsGroup(g, rest);
      assert s[i..] == s[i..end] + s[end..];
      gs := [g] + rest;
    }
  }

  lemma GroupIsAt(s: string, i: nat, g: Group, rest: string)
    requires i <= |s| && IsGroup(g) && s[i..] == Text(g) + rest && (g.unit.None? ==> rest == "")
    ensures GroupAt(s, i) == Some((i + |Text(g)|, Value(g)))
    ensures s[i + |Text(g)|..] == rest
  {
    var end := i + |g.digits|;
    assert forall k :: 0 <= k < |g.digits| ==> s[i..][k] == g.digits[k];
    assert forall k :: i <= k < end ==> s[k] == s[i..][k - i];
    assert g.unit.Some? ==> s[end] == s[i..][|g.digits|] == g.unit.value;
    assert DigitEnd(s, i) == end;
    assert s[i..end] == s[i..][..|g.digits|] == g.digits;
    assert s[i + |Text(g)|..] == s[i..][|Text(g)|..] == rest;
  }

  lemma WellFormedTail(gs: seq<Group>)
    requires WellFormed(gs) && gs != []
    ensures IsGroup(gs[0]) && WellFormed(gs[1..]) && (gs[0].unit.None? ==> Render(gs[1..]) == "")
  {
    assert gs[0].unit.None? ==> gs[1..] == [];
  }

  /** The group is what stands at `i`. */
  ghost predicate StandsAt(s: string, i: nat, g: Group) {
    i < |s| && GroupAt(s, i) == Some((i + |Text(g)|, Value(g)))
  }

  /** The groups are what the string is cut into from `i` on. */
  ghost predicate CutInto(s: string, i: nat, gs: seq<Group>)
    decreases |gs|
  {
    if gs == [] then i == |s| else StandsAt(s, i, gs[0]) && CutInto(s, i + |Text(gs[0])|, gs[1..])
  }

  lemma {:induction false} FirstGroupStands(s: string, i: nat, gs: seq<Group>)
    requires i <= |s| && WellFormed(gs) && gs != [] && Render(gs) == s[i..]
    ensures StandsAt(s, i, gs[0]) && i + |Text(gs[0])| <= |s|
    ensures s[i + |Text(gs[0])|..] == Render(gs[1..]) && WellFormed(gs[1..])
  {
    WellFormedTail(gs);
    GroupIsAt(s, i, gs[0], Render(gs[1..]));
  }

  lemma {:induction false} RenderedIsCutInto(s: string, i: nat, gs: seq<Group>)
    requires i <= |s| && WellFormed(gs) && Render(gs) == s[i..]
    ensures CutInto(s, i, gs)
    decreases |gs|
  {
    if gs != [] {
      FirstGroupStands(s, i, gs);
      RenderedIsCutInto(s, i + |Text(gs[0])|, gs[1..]);
    }
  }

  lemma {:induction false} ReadIsComplete(s: string, i: nat, gs: seq<Group>)
    requires i <= |s| && CutInto(s, i, gs)
    ensures Read(s, i) == Some(Total(gs))
    decreases |gs|
  {
    if gs != [] {
      ReadIsComplete(s, i + |Text(gs[0])|, gs[1..]);
    }
  }

  /** A string can be read exactly if it denotes something, and then only as what it denotes. */
  lemma {:induction false} ReadIffDenotes(str: string, v: nat)
    ensures str != "" && Read(str, 0) == Some(v) <==> Denotes(str, v)
  {
    assert str[0..] == str;
    if str != "" && Read(str, 0) == Some(v) {
      var gs := ReadIsSound(str, 0);
      assert gs != [] && WellFormed(gs) && Render(gs) == str && Total(gs) == v;
    }
    if Denotes(str, v) {
      var gs :| gs != [] && WellFormed(gs) && Render(gs) == str && Total(gs) == v;
      RenderedIsCutInto(str, 0, gs);
      ReadIsComplete(str, 0, gs);
      assert IsGroup(gs[0]);
    }
  }

  predicate AllDigits(digits: string) {
    digits != "" && forall i :: 0 <= i < |digits| ==> IsDigit(digits[i])
  }

  /** A minute has 60 seconds, an hour 3600, a day 86400 and a week 604800, in either case of the letter. */
  predicate IsWorth(unit: char, seconds: nat) {
    || (unit in "sS" && seconds == 1) || (unit in "mM" && seconds == 60) || (unit in "hH" && seconds == 3600)
    || (unit in "dD" && seconds == 86400) || (unit in "wW" && seconds == 604800)
  }

  lemma OneGroupDenotes(g: Group, v: nat)
    requires IsGroup(g)
    ensures Denotes(Text(g), v) <==> v == Value(g)
  {
    var str := Text(g);
    assert str[0..] == str + "" == str;
    GroupIsAt(str, 0, g, "");
    ReadIffDenotes(str, v);
  }

  /** A number with a unit denotes so many times the unit, a number alone that many seconds, and nothing else. */
  lemma NumberWithUnitDenotes(digits: string, unit: char, seconds: nat, v: nat)
    requires AllDigits(digits) && IsWorth(unit, seconds)
    ensures Denotes(digits + [unit], v) <==> v == seconds * Decimal(digits)
    ensures Denotes(digits, v) <==> v == Decimal(digits)
  {
    OneGroupDenotes(Group(digits, Some(unit)), v);
    OneGroupDenotes(Group(digits, None), v);
    assert digits + "" == digits;
  }

  /** No other letter or sign is a unit. */
  lemma OtherUnitDenotesNothing(digits: string, unit: char, v: nat)
    requires AllDigits(digits) && !IsDigit(unit) && unit !in "sSmMhHdDwW"
    ensures !Denotes(digits + [unit], v)
  {
    var str := digits + [unit];
    assert forall k :: 0 <= k < |digits| ==> str[k] == digits[k];
    assert str[|digits|] == unit;
    assert DigitEnd(str, 0) == |digits|;
    assert !IsUnit(unit);
    ReadIffDenotes(str, v);
  }

  // ---------------------------------------------------------------- the scanner

  lemma ProductGrows(val: nat, a: nat, b: nat)
    requires a <= b
    ensures val * a <= val * b
  {
    assert val * b - val * a == val * (b - a);
  }

  lemma QuotientBounds(total: nat, val: nat)
    requires val > 0
    ensures val * (total / val) <= total < val * (total / val + 1)
  {
  }

  lemma OverflowIff(val: nat, multiplier: nat)
    requires val > 0
    ensures multiplier > MAX_UINT32 / val <==> val * multiplier > MAX_UINT32
  {
    var q := MAX_UINT32 / val;
    QuotientBounds(MAX_UINT32, val);
    if multiplier > q {
      ProductGrows(val, q + 1, multiplier);
    } else {
      ProductGrows(val, multiplier, q);
    }
  }

  /**
  The scanner succeeds exactly on the strings of the format whose exact number of seconds fits in
  32 bits, and returns that number.
  */
  method ConvertSshTime(str: string) returns (r: Option<nat>)
    ensures forall v: nat :: r == Some(v) <==> Denotes(str, v) && v <= MAX_UINT32
  {
    r := Scan(str);
    forall v: nat ensures r == Some(v) <==> Denotes(str, v) && v <= MAX_UINT32 {
      ReadIffDenotes(str, v);
    }
  }

  /** The total so far and what is still to be read, if that fits in 32 bits. */
  function Sum(total: nat, rest: Option<nat>): Option<nat> {
    if rest.Some? && total + rest.value <= MAX_UINT32 then Some(total + rest.value) else None
  }

  lemma {:induction false} SumStep(str: string, i: nat, total: nat)
    requires i < |str|
    ensures Sum(total, Read(str, i)) ==
              match GroupAt(str, i)
              case None => None
              case Some((end, value)) => Sum(total + value, Read(str, end))
  {
  }

  method Scan(str: string) returns (r: Option<nat>)
    ensures r == if str == "" then None else Sum(0, Read(str, 0))
  {
    if str == "" {
      return None;
    }
    var total: nat, i: nat := 0, 0;
    ghost var goal := Sum(0, Read(str, 0));
    while i < |str|
      invariant i <= |str| && total <= MAX_UINT32
      invariant Sum(total, Read(str, i)) == goal
      decreases |str| - i
    {
      SumStep(str, i, total);
      var group := ScanGroup(str, i, total);
      if group.None? {
        return None;
      }
      i, total := group.value.0, group.value.1;
    }
    return Some(total);
  }

  /** One number and its unit: the position after it and the new total, or an error. */
  method ScanGroup(str: string, start: nat, total: nat) returns (r: Option<(nat, nat)>)
    requires start < |str| && total <= MAX_UINT32
    ensures r.Some? <==> GroupAt(str, start).Some? && total + GroupAt(str, start).value.1 <= MAX_UINT32
    ensures r.Some? ==> r.value == (GroupAt(str, start).value.0, total + GroupAt(str, start).value.1)
  {
    var i := ScanDigits(str, start);
    if start == i {
      return None;
    }
    var val := Decimal(str[start..i]);
    if val > MAX_UINT32 {
      return None;
    }
    var multiplier := 1;
    var end := i;
    if i < |str| {
      if !IsUnit(str[i]) {
        return None;
      }
      multiplier := Seconds(str[i]);
      InSecondsIsProduct(val, str[i]);
      end := i + 1;
    }
    var sum := AddChecked(total, val, multiplier);
    if sum.None? {
      return None;
    }
    return Some((end, sum.value));
  }

  /** Adds `val * multiplier` in 32-bit arithmetic, checking for overflow before each operation. */
  method AddChecked(total: nat, val: nat, multiplier: nat) returns (r: Option<nat>)
    requires total <= MAX_UINT32 && val <= MAX_UINT32
    ensures r == if total + val * multiplier <= MAX_UINT32 then Some(total + val * multiplier) else None
  {
    if val != 0 {
      OverflowIff(val, multiplier);
    }
    if val != 0 && multiplier > MAX_UINT32 / val {
      return None;
    }
    var product := val * multiplier;
    if total > MAX_UINT32 - product {
      return None;
    }
    return Some(total + product);
  }

  method ScanDigits(str: string, start: nat) returns (i: nat)
    requires start <= |str|
    ensures i == DigitEnd(str, start)
  {
    i := start;
    while i < |str| && IsDigit(str[i])
      invariant start <= i <= |str|
      invariant DigitEnd(str, i) == DigitEnd(str, start)
    {
      i := i + 1;
    }
  }
}
