/**
Well-formed port lists, and the printer that writes the ranges on tsshd's command line. What is
printed is read back by tsshd with a parser of the same text, so the two must be inverse.
*/
module PortLists {
  import opened Common
  import opened PortRanges
  import SshTime

  // ---------------------------------------------------------------- well-formed lists

  /** "8000", "8000-9000" or "8000 - 9000", with the ports as they are written. */
  datatype Item = Single(a: string) | Joined(a: string, b: string) | Spaced(a: string, b: string)

  function High(item: Item): string {
    if item.Single? then item.a else item.b
  }

  function Width(item: Item): nat {
    if item.Spaced? then 3 else 1
  }

  predicate IsItem(item: Item) {
    && Port(item.a).Some? && Port(High(item)).Some?
    && Port(item.a).value <= Port(High(item)).value
  }

  function ItemRange(item: Item): (r: Range)
    requires IsItem(item)
    ensures ValidRange(r)
  {
    Range(Port(item.a).value, Port(High(item)).value)
  }

  function ItemWords(item: Item): (words: seq<string>)
    ensures |words| == Width(item)
  {
    match item
    case Single(a) => [a]
    case Joined(a, b) => [a + "-" + b]
    case Spaced(a, b) => [a, "-", b]
  }

  predicate AreItems(items: seq<Item>) {
    forall i :: 0 <= i < |items| ==> IsItem(items[i])
  }

  function Words(items: seq<Item>): seq<string> {
    if items == [] then [] else ItemWords(items[0]) + Words(items[1..])
  }

  function Ranges(items: seq<Item>): seq<Range>
    requires AreItems(items)
  {
    if items == [] then [] else [ItemRange(items[0])] + Ranges(items[1..])
  }

  /** Items with white space around their tokens. */
  datatype Segment = Segment(items: seq<Item>, gaps: seq<string>)

  predicate IsGap(gap: string) {
    forall i :: 0 <= i < |gap| ==> IsSpace(gap[i])
  }

  /** White space anywhere around the tokens, and some between any two. */
  predicate Separates(gaps: seq<string>, ts: seq<string>) {
    && |gaps| == |ts| + 1
    && (forall i :: 0 <= i < |gaps| ==> IsGap(gaps[i]))
    && (forall i :: 0 < i < |ts| ==> gaps[i] != "")
  }

  predicate IsSegment(segment: Segment) {
    AreItems(segment.items) && Separates(segment.gaps, Words(segment.items))
  }

  function Spread(ts: seq<string>, gaps: seq<string>): string
    requires |gaps| == |ts| + 1
  {
    if ts == [] then gaps[0] else gaps[0] + ts[0] + Spread(ts[1..], gaps[1..])
  }

  predicate AreSegments(segments: seq<Segment>) {
    forall i :: 0 <= i < |segments| ==> IsSegment(segments[i])
  }

  function SegmentText(segment: Segment): string
    requires IsSegment(segment)
  {
    Spread(Words(segment.items), segment.gaps)
  }

  function Texts(segments: seq<Segment>): (texts: seq<string>)
    requires AreSegments(segments)
  {
    if segments == [] then []
    else Texts(segments[..|segments| - 1]) + [SegmentText(segments[|segments| - 1])]
  }

  function AllRanges(segments: seq<Segment>): seq<Range>
    requires AreSegments(segments)
  {
    if segments == [] then []
    else AllRanges(segments[..|segments| - 1]) + Ranges(segments[|segments| - 1].items)
  }

  // ---------------------------------------------------------------- words and tokens

  lemma PortsHaveOnlyDigits(s: string)
    requires Port(s).Some?
    ensures s != "" && '-' !in s && IsWord(s)
  {
  }

  /** What `Fields` and `Split` must leave whole. */
  predicate IsWord(w: string) {
    w != "" && ',' !in w && forall i :: 0 <= i < |w| ==> !IsSpace(w[i])
  }

  predicate AreWords(words: seq<string>) {
    forall i :: 0 <= i < |words| ==> IsWord(words[i])
  }

  lemma {:induction false} WordsAreWords(items: seq<Item>)
    requires AreItems(items)
    ensures AreWords(Words(items))
  {
    if items != [] {
      assert IsItem(items[0]);
      PortsHaveOnlyDigits(items[0].a);
      PortsHaveOnlyDigits(High(items[0]));
      assert AreWords(ItemWords(items[0]));
      WordsAreWords(items[1..]);
    }
  }

  function ItemTokens(item: Item): (ts: seq<Token>)
    requires IsItem(item)
    ensures |ts| == Width(item)
  {
    match item
    case Single(a) => [Plain(Port(a))]
    case Joined(a, b) => [Pair([ItemRange(item)])]
    case Spaced(a, b) => [Plain(Port(a)), Hyphen, Plain(Port(b))]
  }

  function Tokens(items: seq<Item>): seq<Token>
    requires AreItems(items)
  {
    if items == [] then [] else ItemTokens(items[0]) + Tokens(items[1..])
  }

  lemma JoinedIsCombined(a: string, b: string)
    requires IsItem(Joined(a, b))
    ensures Lex(a + "-" + b) == Pair([ItemRange(Joined(a, b))])
  {
    PortsHaveOnlyDigits(a);
    PortsHaveOnlyDigits(b);
    var parts := [a, b];
    assert parts[1..] == [b];
    assert Join(parts, '-') == a + "-" + b;
    SplitOfJoin(parts, '-');
    assert (a + "-" + b)[|a|] == '-';
    assert |a + "-" + b| >= 2;
  }

  lemma ItemIsLexed(item: Item)
    requires IsItem(item)
    ensures LexAll(ItemWords(item)) == ItemTokens(item)
  {
    PortsHaveOnlyDigits(item.a);
    PortsHaveOnlyDigits(High(item));
    if item.Joined? {
      JoinedIsCombined(item.a, item.b);
    }
  }

  lemma {:induction false} ItemsAreLexed(items: seq<Item>)
    requires AreItems(items)
    ensures LexAll(Words(items)) == Tokens(items)
  {
    if items != [] {
      ItemIsLexed(items[0]);
      ItemsAreLexed(items[1..]);
      LexAllAppend(ItemWords(items[0]), Words(items[1..]));
    }
  }

  /** No hyphen on either side: a range does not reach across here. */
  predicate Boundary(ts: seq<Token>, i: nat) {
    i <= |ts| && (i == 0 || !ts[i - 1].Hyphen?) && (i == |ts| || !ts[i].Hyphen?)
  }

  /** The tokens from `i` on begin with those of the item. */
  ghost predicate ItemAt(ts: seq<Token>, i: nat, item: Item)
    requires IsItem(item)
  {
    && i + Width(item) <= |ts|
    && match item
       case Single(a) => ts[i] == Plain(Port(a))
       case Joined(_, _) => ts[i] == Pair([ItemRange(item)])
       case Spaced(a, b) => ts[i] == Plain(Port(a)) && ts[i + 1] == Hyphen && ts[i + 2] == Plain(Port(b))
  }

  lemma {:induction false} SpacedIsRead(ts: seq<Token>, i: nat, item: Item, k: int)
    requires IsItem(item) && item.Spaced? && k < i && ItemAt(ts, i, item)
    ensures FromTokens(ts, i, k) == [ItemRange(item)] + FromTokens(ts, i + 3, i + 2)
  {
    OneRound(ts, i, k);
    OneRound(ts, i + 1, k);
    assert [] + FromTokens(ts, i + 1, k) == FromTokens(ts, i + 1, k);
  }

  /** The parser takes one item from the tokens, wherever it stands. */
  lemma {:induction false} ItemIsRead(ts: seq<Token>, i: nat, item: Item, k: int) returns (used: int)
    requires IsItem(item) && k < i && ItemAt(ts, i, item) && Boundary(ts, i) && Boundary(ts, i + Width(item))
    ensures used < i + Width(item)
    ensures FromTokens(ts, i, k) == [ItemRange(item)] + FromTokens(ts, i + Width(item), used)
  {
    if item.Spaced? {
      SpacedIsRead(ts, i, item, k);
      used := i + 2;
    } else {
      OneRound(ts, i, k);
      used := k;
    }
  }

  lemma {:induction false} ItemEnds(ts: seq<Token>, i: nat, items: seq<Item>)
    requires AreItems(items) && items != [] && i <= |ts| && ts[i..] == Tokens(items)
    ensures ItemAt(ts, i, items[0])
    ensures Boundary(ts, i + Width(items[0])) && ts[i + Width(items[0])..] == Tokens(items[1..])
  {
    var first, rest := ItemTokens(items[0]), Tokens(items[1..]);
    var next := i + |first|;
    assert |ts[i..]| == |first| + |rest|;
    assert forall n :: 0 <= n < |first| ==> ts[i + n] == ts[i..][n] == first[n];
    assert ts[next..] == ts[i..][|first|..] == rest;
    assert next < |ts| ==> ts[next] == rest[0];
    assert ts[next - 1] == first[|first| - 1];
  }

  lemma {:induction false} NothingLeft(ts: seq<Token>, i: nat, k: int)
    requires i <= |ts| && ts[i..] == []
    ensures FromTokens(ts, i, k) == []
  {
    assert |ts[i..]| == 0;
  }

  /** Reading an item and then `rest` reads both. */
  lemma {:induction false} ItemThenRest(ts: seq<Token>, i: nat, k: int, r: Range, next: nat, used: int, rest: seq<Range>)
    requires FromTokens(ts, i, k) == [r] + FromTokens(ts, next, used) && FromTokens(ts, next, used) == rest
    ensures FromTokens(ts, i, k) == [r] + rest
  {
  }

  lemma {:induction false} ItemsAreRead(ts: seq<Token>, i: nat, items: seq<Item>, k: int)
    requires AreItems(items) && k < i && Boundary(ts, i) && ts[i..] == Tokens(items)
    ensures FromTokens(ts, i, k) == Ranges(items)
    decreases |items|
  {
    if items == [] {
      NothingLeft(ts, i, k);
    } else {
      var next := i + Width(items[0]);
      ItemEnds(ts, i, items);
      var used := ItemIsRead(ts, i, items[0], k);
      ItemsAreRead(ts, next, items[1..], used);
      ItemThenRest(ts, i, k, ItemRange(items[0]), next, used, Ranges(items[1..]));
    }
  }

  // ---------------------------------------------------------------- white space

  lemma {:induction false} FieldsAfterGap(gap: string, s: string)
    requires IsGap(gap)
    ensures Fields(gap + s) == Fields(s)
    decreases |gap|
  {
    if gap == "" {
      assert gap + s == s;
    } else {
      assert (gap + s)[1..] == gap[1..] + s;
      FieldsAfterGap(gap[1..], s);
    }
  }

  lemma {:induction false} FieldsOfWord(t: string, s: string)
    requires IsWord(t) && (s == "" || IsSpace(s[0]))
    ensures Fields(t + s) == [t] + Fields(s)
  {
    var all := t + s;
    assert forall i :: 0 <= i < |t| ==> all[i] == t[i];
    assert s != "" ==> all[|t|] == s[0];
    assert WordLength(all) == |t|;
    assert all[..|t|] == t && all[|t|..] == s;
  }

  lemma SpreadBeginsWithGap(ts: seq<string>, gaps: seq<string>)
    requires |gaps| == |ts| + 1 && IsGap(gaps[0]) && (ts != [] ==> gaps[0] != "")
    ensures Spread(ts, gaps) == "" || IsSpace(Spread(ts, gaps)[0])
  {
    if ts != [] {
      assert Spread(ts, gaps)[0] == gaps[0][0];
    }
  }

  lemma {:induction false} FieldsOfFirst(gap: string, word: string, rest: string)
    requires IsGap(gap) && IsWord(word) && (rest == "" || IsSpace(rest[0]))
    ensures Fields(gap + word + rest) == [word] + Fields(rest)
  {
    assert gap + word + rest == gap + (word + rest);
    FieldsAfterGap(gap, word + rest);
    FieldsOfWord(word, rest);
  }

  lemma {:induction false} FieldsOfSpread(ts: seq<string>, gaps: seq<string>)
    requires Separates(gaps, ts) && AreWords(ts)
    ensures Fields(Spread(ts, gaps)) == ts
    decreases |ts|
  {
    if ts == [] {
      FieldsAfterGap(gaps[0], "");
      assert gaps[0] + "" == gaps[0];
    } else {
      SpreadBeginsWithGap(ts[1..], gaps[1..]);
      FieldsOfFirst(gaps[0], ts[0], Spread(ts[1..], gaps[1..]));
      FieldsOfSpread(ts[1..], gaps[1..]);
    }
  }

  lemma {:induction false} NoCommaInSpread(ts: seq<string>, gaps: seq<string>)
    requires Separates(gaps, ts) && AreWords(ts)
    ensures ',' !in Spread(ts, gaps)
    decreases |ts|
  {
    assert IsGap(gaps[0]);
    if ts != [] {
      NoCommaInSpread(ts[1..], gaps[1..]);
    }
  }

  // ---------------------------------------------------------------- whole lists

  lemma {:induction false} SegmentIsRead(segment: Segment)
    requires IsSegment(segment)
    ensures FromSegment(SegmentText(segment)) == Ranges(segment.items)
    ensures ',' !in SegmentText(segment)
  {
    var words := Words(segment.items);
    WordsAreWords(segment.items);
    FieldsOfSpread(words, segment.gaps);
    NoCommaInSpread(words, segment.gaps);
    ItemsAreLexed(segment.items);
    ItemsAreRead(LexAll(words), 0, segment.items, -1);
  }

  lemma {:induction false} SegmentsAreRead(segments: seq<Segment>)
    requires AreSegments(segments)
    ensures FromSegments(Texts(segments)) == AllRanges(segments)
    ensures |Texts(segments)| == |segments|
    ensures forall i :: 0 <= i < |segments| ==> ',' !in Texts(segments)[i]
  {
    if segments != [] {
      var init, last := segments[..|segments| - 1], segments[|segments| - 1];
      SegmentsAreRead(init);
      SegmentIsRead(last);
      assert Texts(segments)[..|init|] == Texts(init);
    }
  }

  /**
  Every well-formed list, in any of its three notations and with any white space, is read as exactly
  the ranges it writes, in order.
  */
  lemma {:induction false} WellFormedListIsRead(segments: seq<Segment>)
    requires segments != [] && AreSegments(segments)
    ensures Parsed(Join(Texts(segments), ',')) == AllRanges(segments)
  {
    SegmentsAreRead(segments);
    SplitOfJoin(Texts(segments), ',');
  }

  // ---------------------------------------------------------------- the printer

  function DigitChar(d: nat): (c: char)
    requires d < 10
    ensures SshTime.IsDigit(c) && SshTime.Digit(c) == d
  {
    (d + '0' as int) as char
  }

  function ToDecimal(n: nat): (s: string)
    ensures s != "" && AllDigits(s)
  {
    if n < 10 then [DigitChar(n)] else ToDecimal(n / 10) + [DigitChar(n % 10)]
  }

  lemma {:induction false} DecimalReadsBack(n: nat)
    ensures SshTime.Decimal(ToDecimal(n)) == n
  {
    var s := ToDecimal(n);
    if n < 10 {
      assert s[..|s| - 1] == "";
    } else {
      assert s[..|s| - 1] == ToDecimal(n / 10);
      DecimalReadsBack(n / 10);
    }
  }

  function RangeText(r: Range): string {
    if r.low == r.high then ToDecimal(r.low) else ToDecimal(r.low) + "-" + ToDecimal(r.high)
  }

  function RangeTexts(rs: seq<Range>): seq<string> {
    if rs == [] then [] else RangeTexts(rs[..|rs| - 1]) + [RangeText(rs[|rs| - 1])]
  }

  function Printed(rs: seq<Range>): string {
    Join(RangeTexts(rs), ',')
  }

  method PrintRanges(ranges: seq<Range>) returns (buf: string)
    ensures buf == Printed(ranges)
  {
    buf := "";
    for i := 0 to |ranges|
      invariant buf == Printed(ranges[..i])
    {
      var r := ranges[i];
      PrintedOneMore(ranges, i);
      if i > 0 {
        buf := buf + ",";
      }
      if r.low == r.high {
        buf := buf + ToDecimal(r.low);
      } else {
        buf := buf + (ToDecimal(r.low) + "-" + ToDecimal(r.high));
      }
    }
    assert ranges[..|ranges|] == ranges;
  }

  lemma {:induction false} PrintedOneMore(ranges: seq<Range>, i: nat)
    requires i < |ranges|
    ensures Printed(ranges[..i + 1]) == Printed(ranges[..i]) + (if i == 0 then "" else ",") + RangeText(ranges[i])
  {
    assert ranges[..i + 1][..i] == ranges[..i];
    assert RangeTexts(ranges[..i + 1]) == RangeTexts(ranges[..i]) + [RangeText(ranges[i])];
    JoinAppend(RangeTexts(ranges[..i]), RangeText(ranges[i]), ',');
  }

  /** A printed range is a segment of its own, without white space. */
  function AsSegment(r: Range): Segment {
    Segment([if r.low == r.high then Single(ToDecimal(r.low)) else Joined(ToDecimal(r.low), ToDecimal(r.high))], ["", ""])
  }

  lemma SpreadOne(word: string)
    ensures Spread([word], ["", ""]) == word
  {
    var words, gaps := [word], ["", ""];
    assert words[1..] == [] && gaps[1..] == [""];
    assert "" + word + "" == word;
  }

  lemma WordsOne(item: Item)
    requires IsItem(item)
    ensures Words([item]) == ItemWords(item) && Ranges([item]) == [ItemRange(item)]
  {
    assert [item][1..] == [];
  }

  lemma {:induction false} AsSegmentPrints(r: Range)
    requires ValidRange(r)
    ensures IsSegment(AsSegment(r)) && Ranges(AsSegment(r).items) == [r]
    ensures SegmentText(AsSegment(r)) == RangeText(r)
  {
    DecimalReadsBack(r.low);
    DecimalReadsBack(r.high);
    var s := AsSegment(r);
    WordsOne(s.items[0]);
    assert s.items == [s.items[0]] && Words(s.items) == [RangeText(r)];
    SpreadOne(RangeText(r));
  }

  function AsSegments(rs: seq<Range>): (segments: seq<Segment>)
    ensures |segments| == |rs|
  {
    if rs == [] then [] else AsSegments(rs[..|rs| - 1]) + [AsSegment(rs[|rs| - 1])]
  }

  predicate AllValid(rs: seq<Range>) {
    forall r :: r in rs ==> ValidRange(r)
  }

  lemma {:induction false} AppendSegment(init: seq<Segment>, last: Segment)
    requires AreSegments(init) && IsSegment(last)
    ensures AreSegments(init + [last])
    ensures Texts(init + [last]) == Texts(init) + [SegmentText(last)]
    ensures AllRanges(init + [last]) == AllRanges(init) + Ranges(last.items)
  {
    assert (init + [last])[..|init|] == init;
  }

  /** The segments write the ranges as the printer does. */
  ghost predicate Write(segments: seq<Segment>, rs: seq<Range>) {
    AreSegments(segments) && Texts(segments) == RangeTexts(rs) && AllRanges(segments) == rs
  }

  lemma {:induction false} WriteOneMore(segments: seq<Segment>, rs: seq<Range>, r: Range)
    requires Write(segments, rs) && ValidRange(r)
    ensures Write(segments + [AsSegment(r)], rs + [r])
  {
    AsSegmentPrints(r);
    AppendSegment(segments, AsSegment(r));
    assert (rs + [r])[..|rs|] == rs;
  }

  lemma {:induction false} AsSegmentsWrite(rs: seq<Range>)
    requires AllValid(rs)
    ensures Write(AsSegments(rs), rs)
  {
    if rs != [] {
      var init, last := rs[..|rs| - 1], rs[|rs| - 1];
      AsSegmentsWrite(init);
      WriteOneMore(AsSegments(init), init, last);
      assert rs == init + [last];
    }
  }

  /** Parsing the printed ranges gives them back. */
  lemma {:induction false} PrintedRangesReadBack(rs: seq<Range>)
    requires AllValid(rs)
    ensures Parsed(Printed(rs)) == rs
  {
    if rs == [] {
      assert Split("", ',') == [""];
      assert Fields("") == [];
    } else {
      AsSegmentsWrite(rs);
      WellFormedListIsRead(AsSegments(rs));
    }
  }

  /** Whatever the user wrote, tsshd reads from its command line the ranges that tssh read. */
  lemma {:induction false} ServerReadsWhatClientRead(text: string)
    ensures Parsed(Printed(Parsed(text))) == Parsed(text)
  {
    ParsedRangesAreValid(text);
    PrintedRangesReadBack(Parsed(text));
  }
}
