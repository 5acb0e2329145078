/**
The list of ports that tssh passes to tsshd: comma-separated segments of ports and port ranges,
where a range is written "8000-9000" or "8000 - 9000". Whatever is malformed is skipped.
*/
module PortRanges {
  import opened Common
  import SshTime

  datatype Range = Range(low: nat, high: nat)

  predicate ValidRange(r: Range) {
    1 <= r.low <= r.high <= 65535
  }

  // ---------------------------------------------------------------- strings

  /** White_Space of Unicode. */
  predicate IsSpace(c: char) {
    || '\t' <= c <= '\r' || c == ' ' || c == '\U{85}' || c == '\U{A0}' || c == '\U{1680}'
    || '\U{2000}' <= c <= '\U{200A}' || c == '\U{2028}' || c == '\U{2029}' || c == '\U{202F}'
    || c == '\U{205F}' || c == '\U{3000}'
  }

  function IndexOf(s: string, sep: char): (n: nat)
    ensures n <= |s|
    ensures n < |s| ==> s[n] == sep
    ensures forall i :: 0 <= i < n ==> s[i] != sep
  {
    if s == "" || s[0] == sep then 0 else 1 + IndexOf(s[1..], sep)
  }

  /** The parts between the separators; one part, possibly empty, if there is none. */
  function Split(s: string, sep: char): (parts: seq<string>)
    ensures |parts| >= 1
    decreases |s|
  {
    var n := IndexOf(s, sep);
    if n == |s| then [s] else [s[..n]] + Split(s[n + 1..], sep)
  }

  function WordLength(s: string): (n: nat)
    ensures n <= |s|
    ensures n < |s| ==> IsSpace(s[n])
    ensures forall i :: 0 <= i < n ==> !IsSpace(s[i])
  {
    if s == "" || IsSpace(s[0]) then 0 else 1 + WordLength(s[1..])
  }

  /** The words between white space. */
  function Fields(s: string): seq<string>
    decreases |s|
  {
    if s == "" then []
    else if IsSpace(s[0]) then Fields(s[1..])
    else
      var n := WordLength(s);
      assert n > 0;
      [s[..n]] + Fields(s[n..])
  }

  predicate AllDigits(s: string) {
    forall i :: 0 <= i < |s| ==> SshTime.IsDigit(s[i])
  }

  /** A decimal number from 1 to 65535. */
  function Port(s: string): (p: Option<nat>)
    ensures p.Some? ==> 1 <= p.value <= 65535 && s != "" && AllDigits(s)
  {
    if s != "" && AllDigits(s) && 1 <= SshTime.Decimal(s) <= 65535 then Some(SshTime.Decimal(s)) else None
  }

  // ---------------------------------------------------------------- the parser

  /** What a token means to the parser: "-", a token with a hyphen in it, or anything else. */
  datatype Token = Hyphen | Pair(ranges: seq<Range>) | Plain(port: Option<nat>)

  function PortOf(token: Token): Option<nat> {
    if token.Plain? then token.port else None
  }

  /** What addPortRange appends. */
  function Added(low: Option<nat>, high: Option<nat>): (rs: seq<Range>) {
    if low.Some? && high.Some? && low.value <= high.value then [Range(low.value, high.value)] else []
  }

  function Combined(token: string): (rs: seq<Range>) {
    var parts := Split(token, '-');
    if |parts| != 2 || parts[0] == "" || parts[1] == "" then [] else Added(Port(parts[0]), Port(parts[1]))
  }

  function Lex(token: string): (t: Token)
    ensures PortOf(t) == Port(token)
    ensures t.Hyphen? <==> token == "-"
  {
    if token == "-" then Hyphen else if '-' in token then Pair(Combined(token)) else Plain(Port(token))
  }

  function LexAll(tokens: seq<string>): (ts: seq<Token>)
    ensures |ts| == |tokens| && forall i :: 0 <= i < |tokens| ==> ts[i] == Lex(tokens[i])
  {
    seq(|tokens|, i requires 0 <= i < |tokens| => Lex(tokens[i]))
  }

  /**
  One round of the loop at token `i`, when the token at `k` is the last one used as the end of a range:
  the ranges found, the token to go on with, and the last token used from then on.
  */
  function Round(ts: seq<Token>, i: nat, k: int): (r: (seq<Range>, nat, int))
    requires i < |ts|
    ensures i < r.1
  {
    match ts[i]
    case Pair(rs) => (rs, i + 1, k)
    case Hyphen =>
      if i == 0 || i + 1 >= |ts| || i - 1 <= k then ([], i + 2, k)
      else (Added(PortOf(ts[i - 1]), PortOf(ts[i + 1])), i + 2, i + 1)
    case Plain(port) =>
      if (i + 1 < |ts| && ts[i + 1].Hyphen?) || (i > 0 && ts[i - 1].Hyphen?) then ([], i + 1, k)
      else (Added(port, port), i + 1, k)
  }

  function FromTokens(ts: seq<Token>, i: nat, k: int): seq<Range>
    decreases |ts| - i
  {
    if i >= |ts| then []
    else
      var (rs, next, used) := Round(ts, i, k);
      rs + FromTokens(ts, next, used)
  }

  function FromSegment(segment: string): seq<Range> {
    FromTokens(LexAll(Fields(segment)), 0, -1)
  }

  function FromSegments(segments: seq<string>): seq<Range> {
    if segments == [] then []
    else FromSegments(segments[..|segments| - 1]) + FromSegment(segments[|segments| - 1])
  }

  function Parsed(text: string): seq<Range> {
    FromSegments(Split(text, ','))
  }

  method AddPortRange(low: string, high: Option<string>) returns (rs: seq<Range>)
    ensures rs == Added(Port(low), Port(if high.Some? then high.value else low))
  {
    var a := Port(low);
    if a.None? {
      return [];
    }
    var b := a;
    if high.Some? {
      b := Port(high.value);
      if b.None? {
        return [];
      }
    }
    if a.value > b.value {
      return [];
    }
    return [Range(a.value, b.value)];
  }

  method ParseCombined(token: string) returns (rs: seq<Range>)
    ensures rs == Combined(token)
  {
    var parts := Split(token, '-');
    if |parts| != 2 || parts[0] == "" || parts[1] == "" {
      return [];
    }
    rs := AddPortRange(parts[0], Some(parts[1]));
  }

  /** A round at a token with a hyphen in it. */
  lemma CombinedRound(tokens: seq<string>, i: nat, k: int)
    requires i < |tokens| && '-' in tokens[i] && tokens[i] != "-"
    ensures Round(LexAll(tokens), i, k) == (Combined(tokens[i]), i + 1, k)
  {
  }

  /** At a hyphen. */
  lemma HyphenRound(tokens: seq<string>, i: nat, k: int)
    requires i < |tokens| && tokens[i] == "-"
    ensures Round(LexAll(tokens), i, k) ==
              if i == 0 || i + 1 >= |tokens| || i - 1 <= k then ([], i + 2, k)
              else (Added(Port(tokens[i - 1]), Port(tokens[i + 1])), i + 2, i + 1)
  {
  }

  /** At any other token. */
  lemma PlainRound(tokens: seq<string>, i: nat, k: int)
    requires i < |tokens| && '-' !in tokens[i]
    ensures Round(LexAll(tokens), i, k) ==
              if (i + 1 < |tokens| && tokens[i + 1] == "-") || (i > 0 && tokens[i - 1] == "-") then ([], i + 1, k)
              else (Added(Port(tokens[i]), Port(tokens[i])), i + 1, k)
  {
  }

  method ParseToken(tokens: seq<string>, i: nat, k: int) returns (rs: seq<Range>, next: nat, used: int)
    requires i < |tokens|
    ensures (rs, next, used) == Round(LexAll(tokens), i, k)
  {
    var token := tokens[i];
    if '-' in token && token != "-" {
      CombinedRound(tokens, i, k);
      rs := ParseCombined(token);
      return rs, i + 1, k;
    }
    if token == "-" {
      HyphenRound(tokens, i, k);
      if i == 0 || i + 1 >= |tokens| || i - 1 <= k {
        return [], i + 2, k;
      }
      rs := AddPortRange(tokens[i - 1], Some(tokens[i + 1]));
      return rs, i + 2, i + 1;
    }
    PlainRound(tokens, i, k);
    if i + 1 < |tokens| && tokens[i + 1] == "-" {
      return [], i + 1, k;
    }
    if i > 0 && tokens[i - 1] == "-" {
      return [], i + 1, k;
    }
    rs := AddPortRange(token, None);
    return rs, i + 1, k;
  }

  method ParseTokens(tokens: seq<string>) returns (ranges: seq<Range>)
    ensures ranges == FromTokens(LexAll(tokens), 0, -1)
  {
    ranges := [];
    var k: int, i: nat := -1, 0;
    ghost var ts := LexAll(tokens);
    ghost var all := FromTokens(ts, 0, -1);
    while i < |tokens|
      invariant ranges + FromTokens(ts, i, k) == all
      decreases |tokens| - i
    {
      ghost var before := ranges;
      var rs, next, used := ParseToken(tokens, i, k);
      ranges := ranges + rs;
      assert before + (rs + FromTokens(ts, next, used)) == ranges + FromTokens(ts, next, used);
      i, k := next, used;
    }
  }

  method ParsePortRanges(text: string) returns (ranges: seq<Range>)
    ensures ranges == Parsed(text)
  {
    ranges := [];
    var segments := Split(text, ',');
    for n := 0 to |segments|
      invariant ranges == FromSegments(segments[..n])
    {
      assert segments[..n + 1][..n] == segments[..n];
      var rs := ParseTokens(Fields(segments[n]));
      ranges := ranges + rs;
    }
    assert segments[..|segments|] == segments;
  }

  // ---------------------------------------------------------------- splitting and joining

  function Join(parts: seq<string>, sep: char): string {
    if parts == [] then ""
    else if |parts| == 1 then parts[0]
    else parts[0] + [sep] + Join(parts[1..], sep)
  }

  lemma JoinHead(parts: seq<string>, sep: char)
    requires |parts| >= 2
    ensures Join(parts, sep) == parts[0] + [sep] + Join(parts[1..], sep)
  {
  }

  lemma {:induction false} JoinOfSplit(s: string, sep: char)
    ensures Join(Split(s, sep), sep) == s
    decreases |s|
  {
    var n := IndexOf(s, sep);
    if n < |s| {
      var parts := Split(s, sep);
      assert parts[0] == s[..n] && parts[1..] == Split(s[n + 1..], sep);
      JoinHead(parts, sep);
      JoinOfSplit(s[n + 1..], sep);
      assert s == s[..n] + [sep] + s[n + 1..];
    }
  }

  lemma {:induction false} IndexOfIs(part: string, rest: string, sep: char)
    requires sep !in part && (rest == "" || rest[0] == sep)
    ensures IndexOf(part + rest, sep) == |part|
  {
    var s := part + rest;
    assert forall i :: 0 <= i < |part| ==> s[i] == part[i];
    assert rest != "" ==> s[|part|] == sep;
  }

  lemma {:induction false} SplitHead(part: string, rest: string, sep: char)
    requires sep !in part
    ensures Split(part + [sep] + rest, sep) == [part] + Split(rest, sep)
  {
    var s := part + [sep] + rest;
    assert s == part + ([sep] + rest);
    IndexOfIs(part, [sep] + rest, sep);
    assert s[..|part|] == part && s[|part| + 1..] == rest;
  }

  lemma {:induction false} SplitOfJoin(parts: seq<string>, sep: char)
    requires parts != [] && forall i :: 0 <= i < |parts| ==> sep !in parts[i]
    ensures Split(Join(parts, sep), sep) == parts
    decreases |parts|
  {
    if |parts| == 1 {
      IndexOfIs(parts[0], "", sep);
      assert parts[0] + "" == parts[0];
    } else {
      SplitHead(parts[0], Join(parts[1..], sep), sep);
      SplitOfJoin(parts[1..], sep);
    }
  }

  lemma {:induction false} JoinAppend(parts: seq<string>, part: string, sep: char)
    ensures Join(parts + [part], sep) == Join(parts, sep) + (if parts == [] then "" else [sep]) + part
    decreases |parts|
  {
    var all := parts + [part];
    if parts != [] {
      assert all[1..] == parts[1..] + [part];
      JoinAppend(parts[1..], part, sep);
      if |parts| == 1 {
        assert parts[1..] == [];
      }
    }
  }

  // ---------------------------------------------------------------- one part does not spoil another

  lemma {:induction false} SplitConcat(a: string, b: string, sep: char)
    ensures Split(a + [sep] + b, sep) == Split(a, sep) + Split(b, sep)
    decreases |a|
  {
    var n := IndexOf(a, sep);
    if n == |a| {
      SplitHead(a, b, sep);
    } else {
      var head, rest := a[..n], a[n + 1..];
      assert a + [sep] + b == head + [sep] + (rest + [sep] + b);
      SplitHead(head, rest + [sep] + b, sep);
      SplitConcat(rest, b, sep);
    }
  }

  lemma FromSegmentsOneMore(segments: seq<string>, segment: string)
    ensures FromSegments(segments + [segment]) == FromSegments(segments) + FromSegment(segment)
  {
    assert (segments + [segment])[..|segments|] == segments;
  }

  lemma Associative(a: seq<Range>, b: seq<Range>, c: seq<Range>)
    ensures (a + b) + c == a + (b + c)
  {
  }

  lemma {:induction false} ConcatOneMore(a: seq<string>, init: seq<string>, last: string)
    requires FromSegments(a + init) == FromSegments(a) + FromSegments(init)
    ensures FromSegments(a + init + [last]) == FromSegments(a) + FromSegments(init + [last])
  {
    FromSegmentsOneMore(a + init, last);
    FromSegmentsOneMore(init, last);
    Associative(FromSegments(a), FromSegments(init), FromSegment(last));
  }

  lemma InitAndLast(a: seq<string>, b: seq<string>)
    requires b != []
    ensures var init, last := b[..|b| - 1], b[|b| - 1]; b == init + [last] && a + b == a + init + [last]
  {
  }

  lemma {:induction false} NothingToConcat(a: seq<string>)
    ensures FromSegments(a + []) == FromSegments(a) + FromSegments([])
  {
    assert a + [] == a;
  }

  lemma {:induction false} FromSegmentsConcat(a: seq<string>, b: seq<string>)
    ensures FromSegments(a + b) == FromSegments(a) + FromSegments(b)
  {
    if b == [] {
      NothingToConcat(a);
    } else {
      InitAndLast(a, b);
      FromSegmentsConcat(a, b[..|b| - 1]);
      ConcatOneMore(a, b[..|b| - 1], b[|b| - 1]);
    }
  }

  /** Whatever stands before or after a comma, malformed or not, leaves the other side as it is. */
  lemma ParsedOfConcat(a: string, b: string)
    ensures Parsed(a + "," + b) == Parsed(a) + Parsed(b)
  {
    SplitConcat(a, b, ',');
    FromSegmentsConcat(Split(a, ','), Split(b, ','));
  }

  /** Between the two no range reaches across. */
  predicate Apart(xs: seq<Token>, ys: seq<Token>) {
    (xs != [] ==> !xs[|xs| - 1].Hyphen?) && (ys != [] ==> !ys[0].Hyphen?)
  }

  lemma {:induction false} OneRound(ts: seq<Token>, i: nat, k: int)
    requires i < |ts|
    ensures var (rs, next, used) := Round(ts, i, k);
            FromTokens(ts, i, k) == rs + FromTokens(ts, next, used)
  {
  }

  lemma RoundBefore(xs: seq<Token>, ys: seq<Token>, i: nat, k: int)
    requires Apart(xs, ys) && i < |xs|
    ensures Round(xs + ys, i, k) == Round(xs, i, k) && Round(xs, i, k).1 <= |xs|
    ensures k < |xs| ==> Round(xs, i, k).2 < |xs|
  {
    var ts := xs + ys;
    assert forall j :: 0 <= j < |xs| ==> ts[j] == xs[j];
    assert ys != [] ==> ts[|xs|] == ys[0];
  }

  /** The tokens from `n` on are `ys`, and no range reaches across to them. */
  ghost predicate EndsWith(ts: seq<Token>, n: nat, ys: seq<Token>) {
    && |ts| == n + |ys| && (forall j :: 0 <= j < |ys| ==> ts[n + j] == ys[j])
    && (ys != [] ==> !ys[0].Hyphen?) && (0 < n ==> !ts[n - 1].Hyphen?)
  }

  lemma RoundAfter(ts: seq<Token>, n: nat, ys: seq<Token>, i: nat, k: int)
    requires EndsWith(ts, n, ys) && i < |ys| && -1 <= k
    ensures var (rs, next, used) := Round(ys, i, k);
            -1 <= used && Round(ts, n + i, n + k) == (rs, n + next, n + used)
  {
    assert ts[n + i] == ys[i];
    assert i + 1 < |ys| ==> ts[n + (i + 1)] == ys[i + 1];
    assert i > 0 ==> ts[n + (i - 1)] == ys[i - 1];
  }

  lemma {:induction false} SameRound(
      ts: seq<Token>, i: nat, k: int, next: nat, used: int, ts': seq<Token>, i': nat, k': int, next': nat, used': int)
    requires i < |ts| && i' < |ts'|
    requires Round(ts, i, k) == (Round(ts', i', k').0, next, used) && Round(ts', i', k') == (Round(ts', i', k').0, next', used')
    requires FromTokens(ts, next, used) == FromTokens(ts', next', used')
    ensures FromTokens(ts, i, k) == FromTokens(ts', i', k')
  {
    OneRound(ts, i, k);
    OneRound(ts', i', k');
  }

  lemma {:induction false} TokensAfter(ts: seq<Token>, n: nat, ys: seq<Token>, i: nat, k: int)
    requires EndsWith(ts, n, ys) && -1 <= k
    ensures FromTokens(ts, n + i, n + k) == FromTokens(ys, i, k)
    decreases |ys| - i
  {
    if i < |ys| {
      var (rs, next, used) := Round(ys, i, k);
      RoundAfter(ts, n, ys, i, k);
      TokensAfter(ts, n, ys, next, used);
      SameRound(ts, n + i, n + k, n + next, n + used, ys, i, k, next, used);
    }
  }

  /** A token that was used as the end of a range matters only to the hyphen right behind it. */
  lemma {:induction false} EarlierUseIsForgotten(ts: seq<Token>, i: nat, k: int, l: int)
    requires k < i && l < i && (i < |ts| && ts[i].Hyphen? ==> k < i - 1 && l < i - 1)
    ensures FromTokens(ts, i, k) == FromTokens(ts, i, l)
    decreases |ts| - i
  {
    if i < |ts| {
      var (rs, next, used) := Round(ts, i, k);
      OneRound(ts, i, k);
      OneRound(ts, i, l);
      if used != Round(ts, i, l).2 {
        EarlierUseIsForgotten(ts, next, k, l);
      }
    }
  }

  lemma {:induction false} LastTokens(xs: seq<Token>, ys: seq<Token>, k: int)
    requires Apart(xs, ys) && k < |xs|
    ensures FromTokens(xs + ys, |xs|, k) == FromTokens(ys, 0, -1)
  {
    var ts, n := xs + ys, |xs|;
    assert EndsWith(ts, n, ys);
    TokensAfter(ts, n, ys, 0, -1);
    EarlierUseIsForgotten(ts, n, k, n - 1);
  }

  lemma {:induction false} TokensConcat(xs: seq<Token>, ys: seq<Token>, i: nat, k: int)
    requires Apart(xs, ys) && i <= |xs| && k < |xs|
    ensures FromTokens(xs + ys, i, k) == FromTokens(xs, i, k) + FromTokens(ys, 0, -1)
    decreases |xs| - i
  {
    if i == |xs| {
      LastTokens(xs, ys, k);
    } else {
      RoundBefore(xs, ys, i, k);
      var (rs, next, used) := Round(xs, i, k);
      TokensConcat(xs, ys, next, used);
      OneRound(xs + ys, i, k);
      OneRound(xs, i, k);
      Associative(rs, FromTokens(xs, next, used), FromTokens(ys, 0, -1));
    }
  }

  /** The token denotes no range by itself and is no hyphen. */
  predicate Malformed(token: string) {
    token != "-" && if '-' in token then Combined(token) == [] else Port(token).None?
  }

  /** Words that begin and end with something else than a hyphen. */
  predicate NoLooseHyphen(words: seq<string>) {
    words != [] ==> words[0] != "-" && words[|words| - 1] != "-"
  }

  lemma LexAllAppend(a: seq<string>, b: seq<string>)
    ensures LexAll(a + b) == LexAll(a) + LexAll(b)
  {
  }

  lemma {:induction false} WordsConcat(xs: seq<string>, ys: seq<string>)
    requires NoLooseHyphen(xs) && NoLooseHyphen(ys)
    ensures FromTokens(LexAll(xs + ys), 0, -1) == FromTokens(LexAll(xs), 0, -1) + FromTokens(LexAll(ys), 0, -1)
  {
    LexAllAppend(xs, ys);
    TokensConcat(LexAll(xs), LexAll(ys), 0, -1);
  }

  lemma {:induction false} MalformedAlone(token: string)
    requires Malformed(token)
    ensures FromTokens(LexAll([token]), 0, -1) == []
  {
    OneRound(LexAll([token]), 0, -1);
  }

  lemma {:induction false} MalformedFirst(token: string, ys: seq<string>)
    requires Malformed(token) && NoLooseHyphen(ys)
    ensures FromTokens(LexAll([token] + ys), 0, -1) == FromTokens(LexAll(ys), 0, -1)
  {
    MalformedAlone(token);
    WordsConcat([token], ys);
  }

  lemma MalformedIsNoHyphen(token: string, ys: seq<string>)
    requires Malformed(token) && NoLooseHyphen(ys)
    ensures NoLooseHyphen([token] + ys)
  {
  }

  /** A malformed token in the middle of a segment is skipped: what stands around it is read as if by itself. */
  lemma {:induction false} MalformedTokenIsSkipped(xs: seq<string>, token: string, ys: seq<string>)
    requires Malformed(token) && NoLooseHyphen(xs) && NoLooseHyphen(ys)
    ensures FromTokens(LexAll(xs + ([token] + ys)), 0, -1) ==
              FromTokens(LexAll(xs), 0, -1) + FromTokens(LexAll(ys), 0, -1)
  {
    MalformedIsNoHyphen(token, ys);
    MalformedFirst(token, ys);
    WordsConcat(xs, [token] + ys);
  }

  // ---------------------------------------------------------------- what is accepted

  /** Every range read from any text is a range of ports. */
  lemma {:induction false} ParsedRangesAreValid(text: string)
    ensures forall r :: r in Parsed(text) ==> ValidRange(r)
  {
    SegmentRangesAreValid(Split(text, ','));
  }

  lemma {:induction false} SegmentRangesAreValid(segments: seq<string>)
    ensures forall r :: r in FromSegments(segments) ==> ValidRange(r)
  {
    if segments != [] {
      var last := segments[|segments| - 1];
      SegmentRangesAreValid(segments[..|segments| - 1]);
      var spans := RangesHaveDisjointSpans(Fields(last));
      forall r | r in FromSegment(last) ensures ValidRange(r) {
        var n :| 0 <= n < |spans| && FromSegment(last)[n] == r;
        assert SpanDenotes(Fields(last), spans[n], r);
      }
    }
  }

  ghost predicate PortPair(a: string, b: string, r: Range) {
    Port(a) == Some(r.low) && Port(b) == Some(r.high) && r.low <= r.high
  }

  ghost predicate Hyphenated(token: string, r: Range) {
    exists a, b :: token == a + "-" + b && PortPair(a, b, r)
  }

  /** Tokens `from` up to but not including `to`. */
  datatype Span = Span(from: nat, to: nat)

  /** A port by itself, two ports joined by a hyphen, or two ports with a hyphen between them. */
  ghost predicate SpanDenotes(tokens: seq<string>, span: Span, r: Range) {
    && span.from < span.to <= |tokens|
    && if span.to == span.from + 3 then
         tokens[span.from + 1] == "-" && PortPair(tokens[span.from], tokens[span.from + 2], r)
       else
         && span.to == span.from + 1
         && (PortPair(tokens[span.from], tokens[span.from], r) || Hyphenated(tokens[span.from], r))
  }

  ghost predicate Denoted(tokens: seq<string>, spans: seq<Span>, rs: seq<Range>) {
    |spans| == |rs| && forall n :: 0 <= n < |rs| ==> SpanDenotes(tokens, spans[n], rs[n])
  }

  ghost predicate Disjoint(spans: seq<Span>) {
    forall m, n :: 0 <= m < n < |spans| ==> spans[m].to <= spans[n].from
  }

  /**
  Each range comes from tokens of its own that denote it, and the ranges come in the order of their
  tokens: no token is used by two ranges, whatever the tokens are.
  */
  lemma {:induction false} RangesHaveDisjointSpans(tokens: seq<string>) returns (spans: seq<Span>)
    ensures Denoted(tokens, spans, FromTokens(LexAll(tokens), 0, -1)) && Disjoint(spans)
  {
    var ts := LexAll(tokens);
    var rs := FromTokens(ts, 0, -1);
    spans := SpansFrom(ts, 0, -1);
    forall n | 0 <= n < |rs| ensures SpanDenotes(tokens, spans[n], rs[n]) {
      assert Yields(ts, spans[n], rs[n]);
      LexedSpanDenotes(tokens, spans[n], rs[n]);
    }
  }

  /** The same on what the tokens mean. */
  ghost predicate Yields(ts: seq<Token>, span: Span, r: Range) {
    && span.from < span.to <= |ts|
    && if span.to == span.from + 3 then
         ts[span.from + 1].Hyphen? && Added(PortOf(ts[span.from]), PortOf(ts[span.from + 2])) == [r]
       else
         && span.to == span.from + 1
         && (Added(PortOf(ts[span.from]), PortOf(ts[span.from])) == [r] || ts[span.from] == Pair([r]))
  }

  lemma LexedSpanDenotes(tokens: seq<string>, span: Span, r: Range)
    requires Yields(LexAll(tokens), span, r)
    ensures SpanDenotes(tokens, span, r)
  {
    if span.to == span.from + 1 && Lex(tokens[span.from]) == Pair([r]) {
      CombinedMeans(tokens[span.from], r);
    }
  }

  lemma CombinedMeans(token: string, r: Range)
    requires Combined(token) == [r]
    ensures Hyphenated(token, r)
  {
    var parts := Split(token, '-');
    JoinOfSplit(token, '-');
    assert parts[1..] == [parts[1]];
    assert token == parts[0] + "-" + parts[1];
    assert PortPair(parts[0], parts[1], r);
  }

  ghost predicate AllYield(ts: seq<Token>, spans: seq<Span>, rs: seq<Range>) {
    |spans| == |rs| && forall n :: 0 <= n < |rs| ==> Yields(ts, spans[n], rs[n])
  }

  /** A span that reading on from token `i` may use: only a hyphen looks back, at a port not yet used. */
  ghost predicate Ahead(ts: seq<Token>, i: nat, k: int, span: Span) {
    || span.from >= i
    || (span.from == i - 1 && i < |ts| && ts[i].Hyphen? && span.from > k && PortOf(ts[span.from]).Some?)
  }

  ghost predicate AllAhead(ts: seq<Token>, i: nat, k: int, spans: seq<Span>) {
    forall n :: 0 <= n < |spans| ==> Ahead(ts, i, k, spans[n])
  }

  /** Every token with a hyphen in it is at most one range. */
  ghost predicate AtMostOneEach(ts: seq<Token>) {
    forall i :: 0 <= i < |ts| && ts[i].Pair? ==> |ts[i].ranges| <= 1
  }

  lemma {:induction false} SpansFrom(ts: seq<Token>, i: nat, k: int) returns (spans: seq<Span>)
    requires AtMostOneEach(ts)
    ensures AllYield(ts, spans, FromTokens(ts, i, k)) && Disjoint(spans) && AllAhead(ts, i, k, spans)
    decreases |ts| - i
  {
    spans := [];
    if i < |ts| {
      var (rs, next, used) := Round(ts, i, k);
      var first := RoundSpan(ts, i, k);
      var rest := SpansFrom(ts, next, used);
      PrependSpan(ts, i, k, first, next, used, rest);
      spans := first + rest;
    }
  }

  lemma {:induction false} PrependSpan(ts: seq<Token>, i: nat, k: int, first: seq<Span>, next: nat, used: int, rest: seq<Span>)
    requires RoundUses(ts, i, k, first, next, used)
    requires Disjoint(rest) && AllAhead(ts, next, used, rest)
    ensures Disjoint(first + rest) && AllAhead(ts, i, k, first + rest)
  {
    forall n | 0 <= n < |rest| ensures Ahead(ts, i, k, rest[n]) && (first != [] ==> first[0].to <= rest[n].from) {
      LaterSpan(ts, i, k, first, next, used, rest[n]);
    }
  }

  /** The span, if any, that a round uses. */
  ghost predicate RoundUses(ts: seq<Token>, i: nat, k: int, first: seq<Span>, next: nat, used: int) {
    && i < next && i < |ts|
    && (first == [] || (|first| == 1 && Ahead(ts, i, k, first[0])))
    && (first != [] ==> first[0].to <= next)
    && (first != [] && next < |ts| && ts[next].Hyphen? && PortOf(ts[next - 1]).Some? ==> next - 1 <= used)
  }

  lemma LaterSpan(ts: seq<Token>, i: nat, k: int, first: seq<Span>, next: nat, used: int, span: Span)
    requires RoundUses(ts, i, k, first, next, used) && Ahead(ts, next, used, span)
    ensures Ahead(ts, i, k, span) && (first != [] ==> first[0].to <= span.from)
  {
  }

  /** A round finds at most one range; these are the tokens it finds it in. */
  lemma RoundSpan(ts: seq<Token>, i: nat, k: int) returns (first: seq<Span>)
    requires i < |ts| && AtMostOneEach(ts)
    ensures var (rs, next, used) := Round(ts, i, k);
            RoundUses(ts, i, k, first, next, used) && AllYield(ts, first, rs)
  {
    if Round(ts, i, k).0 == [] {
      first := [];
    } else if ts[i].Hyphen? {
      first := [Span(i - 1, i + 2)];
    } else {
      first := [Span(i, i + 1)];
    }
  }
}
