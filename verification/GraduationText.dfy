/**
 The text forms of the graduation state: hex, decimal, output references, tokens and journal entries,
 each with its parser.  Text is ASCII; a string and its bytes are not told apart.
 */
module GraduationText {
  import opened Bytes
  import opened Ledger

  type TxHash = Hash32
  type PolicyId = s: Bytes | |s| == 28 witness seq(28, _ => 0)
  type AssetName = s: Bytes | |s| <= 32

  datatype Token = Token(policy: PolicyId, name: AssetName)

  datatype Entry = Entry(consumed: seq<(OutputRef, Token)>, produced: seq<(OutputRef, Token)>, graduated: seq<Token>)

  // ----- hex and decimal -----

  type Nibble = n: int | 0 <= n < 16

  function HexDigit(n: Nibble): char {
    if n < 10 then (48 + n) as char else (87 + n) as char
  }

  // Either case is read.
  function HexValue(c: char): Option<Nibble> {
    if '0' <= c <= '9' then Some(c as int - 48)
    else if 'a' <= c <= 'f' then Some(c as int - 87)
    else if 'A' <= c <= 'F' then Some(c as int - 55)
    else None
  }

  function Hex(bytes: Bytes): string {
    if bytes == [] then "" else [HexDigit(bytes[0] / 16), HexDigit(bytes[0] % 16)] + Hex(bytes[1..])
  }

  function Joined(high: Nibble, low: Nibble): byte {
    16 * high + low
  }

  function Unhex(s: string): Option<Bytes> {
    if s == "" then Some([])
    else if |s| == 1 then None
    else
      match (HexValue(s[0]), HexValue(s[1]), Unhex(s[2..]))
      case (Some(a), Some(b), Some(rest)) => Some([Joined(a, b)] + rest)
      case _ => None
  }

  function Decimal(n: nat): string {
    if n < 10 then [(48 + n) as char] else Decimal(n / 10) + [(48 + n % 10) as char]
  }

  function Digits(s: string): Option<nat> {
    if s == "" then Some(0)
    else
      var last := |s| - 1;
      match Digits(s[..last])
      case Some(n) => if '0' <= s[last] <= '9' then Some(10 * n + (s[last] as int - 48)) else None
      case None => None
  }

  // One plus sign may stand in front; no digits or a number past 64 bits is refused.
  function ParseU64(s: string): Option<U64> {
    var body := if s != "" && s[0] == '+' then s[1..] else s;
    if body == "" then None
    else
      match Digits(body)
      case Some(n) => if n < 0x1_0000_0000_0000_0000 then Some(n) else None
      case None => None
  }

  lemma {:induction false} HexRoundTrip(bytes: Bytes)
    ensures Unhex(Hex(bytes)) == Some(bytes) && |Hex(bytes)| == 2 * |bytes|
  {
    if bytes != [] {
      HexRoundTrip(bytes[1..]);
      var s := Hex(bytes);
      assert s[2..] == Hex(bytes[1..]);
      assert bytes == [bytes[0]] + bytes[1..];
    }
  }

  lemma {:induction false} DecimalRoundTrip(n: nat)
    ensures Digits(Decimal(n)) == Some(n) && Decimal(n) != "" && '0' <= Decimal(n)[0] <= '9'
  {
    if n < 10 {
      assert Digits(Decimal(n)[..0]) == Some(0);
    } else {
      DecimalRoundTrip(n / 10);
      var s := Decimal(n);
      assert s[..|s| - 1] == Decimal(n / 10);
    }
  }

  // ----- cutting text -----

  // The first position of a character, or the length.
  function Find(s: string, c: char): (i: nat)
    ensures i <= |s| && (forall k :: 0 <= k < i ==> s[k] != c) && (i < |s| ==> s[i] == c)
  {
    if s == "" || s[0] == c then 0 else 1 + Find(s[1..], c)
  }

  function SplitOnce(s: string, c: char): Option<(string, string)> {
    var i := Find(s, c);
    if i == |s| then None else Some((s[..i], s[i + 1..]))
  }

  function Split(s: string, c: char): seq<string>
    decreases |s|
  {
    var i := Find(s, c);
    if i == |s| then [s] else [s[..i]] + Split(s[i + 1..], c)
  }

  // A carriage return before the line feed is cut off; nothing follows a final line feed.
  function Lines(s: string): seq<string>
    decreases |s|
  {
    if s == "" then []
    else
      var i := Find(s, '\n');
      if i == |s| then [s]
      else [if i > 0 && s[i - 1] == '\r' then s[..i - 1] else s[..i]] + Lines(s[i + 1..])
  }

  lemma FindAt(a: string, c: char, b: string)
    requires c !in a
    ensures Find(a + [c] + b, c) == |a|
  {
    var s := a + [c] + b;
    var i := Find(s, c);
    assert s[|a|] == c;
    assert forall k :: 0 <= k < |a| ==> s[k] == a[k] && a[k] in a;
  }

  lemma FindNone(a: string, c: char)
    requires c !in a
    ensures Find(a, c) == |a|
  {
  }

  lemma CutOnce(a: string, c: char, b: string)
    requires c !in a
    ensures SplitOnce(a + [c] + b, c) == Some((a, b))
    ensures Split(a + [c] + b, c) == [a] + Split(b, c)
  {
    FindAt(a, c, b);
    var s := a + [c] + b;
    assert s[..|a|] == a && s[|a| + 1..] == b;
  }

  // ----- references and tokens -----

  function RefText(r: OutputRef): string {
    Hex(r.txHash) + "#" + Decimal(r.index)
  }

  function TokenText(t: Token): string {
    Hex(t.policy) + "." + Hex(t.name)
  }

  function ParseTxHash(s: string): Option<TxHash> {
    match Unhex(s)
    case Some(bytes) => if |bytes| == 32 then Some(bytes) else None
    case None => None
  }

  function ParseRef(s: string): Option<OutputRef> {
    match SplitOnce(s, '#')
    case None => None
    case Some((hash, index)) =>
      match (ParseTxHash(hash), ParseU64(index))
      case (Some(h), Some(n)) => Some(OutputRef(h, n))
      case _ => None
  }

  function ParseToken(s: string): Option<Token> {
    match SplitOnce(s, '.')
    case None => None
    case Some((policy, name)) =>
      match (Unhex(policy), Unhex(name))
      case (Some(p), Some(n)) => if |p| == 28 && |n| <= 32 then Some(Token(p, n)) else None
      case _ => None
  }

  // Hex and decimal text holds none of the separators.
  predicate Alphanumeric(c: char) {
    '0' <= c <= '9' || 'a' <= c <= 'f'
  }

  lemma {:induction false} HexChars(bytes: Bytes)
    ensures forall c :: c in Hex(bytes) ==> Alphanumeric(c)
  {
    if bytes != [] { HexChars(bytes[1..]); }
  }

  lemma {:induction false} DecimalChars(n: nat)
    ensures forall c :: c in Decimal(n) ==> Alphanumeric(c)
  {
    if n >= 10 { DecimalChars(n / 10); }
  }

  lemma TxHashRoundTrip(h: TxHash)
    ensures ParseTxHash(Hex(h)) == Some(h)
  {
    HexRoundTrip(h);
  }

  lemma RefRoundTrip(r: OutputRef)
    ensures ParseRef(RefText(r)) == Some(r)
    ensures forall c :: c in RefText(r) ==> Alphanumeric(c) || c == '#'
  {
    HexChars(r.txHash);
    DecimalChars(r.index);
    TxHashRoundTrip(r.txHash);
    DecimalRoundTrip(r.index);
    CutOnce(Hex(r.txHash), '#', Decimal(r.index));
  }

  lemma TokenRoundTrip(t: Token)
    ensures ParseToken(TokenText(t)) == Some(t)
    ensures forall c :: c in TokenText(t) ==> Alphanumeric(c) || c == '.'
  {
    HexChars(t.policy);
    HexChars(t.name);
    HexRoundTrip(t.policy);
    HexRoundTrip(t.name);
    CutOnce(Hex(t.policy), '.', Hex(t.name));
  }

  // ----- journal entries -----

  function PairText(tag: char, p: (OutputRef, Token)): string {
    [tag] + " " + RefText(p.0) + " " + TokenText(p.1)
  }

  function PoolText(t: Token): string {
    "G " + TokenText(t)
  }

  // A line with its line feed.
  function Ended(line: string): string {
    line + "\n"
  }

  ghost function PairsText(tag: char, pairs: seq<(OutputRef, Token)>): string {
    if pairs == [] then "" else PairsText(tag, pairs[..|pairs| - 1]) + Ended(PairText(tag, pairs[|pairs| - 1]))
  }

  ghost function PoolsText(pools: seq<Token>): string {
    if pools == [] then "" else PoolsText(pools[..|pools| - 1]) + Ended(PoolText(pools[|pools| - 1]))
  }

  ghost function EntryText(e: Entry): string {
    PairsText('C', e.consumed) + PairsText('P', e.produced) + PoolsText(e.graduated)
  }

  method AppendPairs(buffer: string, tag: char, pairs: seq<(OutputRef, Token)>) returns (out: string)
    ensures out == buffer + PairsText(tag, pairs)
  {
    hide RefText, TokenText;
    out := buffer;
    for i := 0 to |pairs|
      invariant out == buffer + PairsText(tag, pairs[..i])
    {
      var line := [tag] + " " + RefText(pairs[i].0) + " " + TokenText(pairs[i].1);
      assert pairs[..i + 1][..i] == pairs[..i];
      assert buffer + (PairsText(tag, pairs[..i]) + (line + "\n")) ==
        buffer + PairsText(tag, pairs[..i]) + (line + "\n");
      out := out + (line + "\n");
    }
    assert pairs[..|pairs|] == pairs;
  }

  method AppendPools(buffer: string, pools: seq<Token>) returns (out: string)
    ensures out == buffer + PoolsText(pools)
  {
    hide TokenText;
    out := buffer;
    for i := 0 to |pools|
      invariant out == buffer + PoolsText(pools[..i])
    {
      var line := "G " + TokenText(pools[i]);
      assert pools[..i + 1][..i] == pools[..i];
      assert buffer + (PoolsText(pools[..i]) + (line + "\n")) == buffer + PoolsText(pools[..i]) + (line + "\n");
      out := out + (line + "\n");
    }
    assert pools[..|pools|] == pools;
  }

  method EncodeJournalEntry(e: Entry) returns (out: string)
    ensures out == EntryText(e)
  {
    hide PairsText, PoolsText;
    out := AppendPairs("", 'C', e.consumed);
    out := AppendPairs(out, 'P', e.produced);
    out := AppendPools(out, e.graduated);
    assert "" + PairsText('C', e.consumed) == PairsText('C', e.consumed);
  }

  const EMPTY_ENTRY := Entry([], [], [])

  // One record added to an entry, or a refusal: the tag decides the number of parts.
  function ParseLine(e: Entry, line: string): Option<Entry> {
    var parts := Split(line, ' ');
    if |parts| == 3 && (parts[0] == "C" || parts[0] == "P") then
      match (ParseRef(parts[1]), ParseToken(parts[2]))
      case (Some(r), Some(t)) =>
        if parts[0] == "C" then Some(e.(consumed := e.consumed + [(r, t)]))
        else Some(e.(produced := e.produced + [(r, t)]))
      case _ => None
    else if |parts| == 2 && parts[0] == "G" then
      match ParseToken(parts[1])
      case Some(t) => Some(e.(graduated := e.graduated + [t]))
      case None => None
    else None
  }

  function ParseLines(lines: seq<string>): Option<Entry> {
    if lines == [] then Some(EMPTY_ENTRY)
    else
      match ParseLines(lines[..|lines| - 1])
      case Some(e) => ParseLine(e, lines[|lines| - 1])
      case None => None
  }

  function ParseEntry(s: string): Option<Entry> {
    ParseLines(Lines(s))
  }

  method ParseJournalEntry(raw: string) returns (r: Option<Entry>)
    ensures r == ParseEntry(raw)
  {
    hide Lines, Split, ParseRef, ParseToken;
    var lines := Lines(raw);
    var e := EMPTY_ENTRY;
    for i := 0 to |lines|
      invariant ParseLines(lines[..i]) == Some(e)
    {
      assert lines[..i + 1][..i] == lines[..i];
      Stuck(lines, i + 1);
      var parts := Split(lines[i], ' ');
      if |parts| >= 1 && (parts[0] == "C" || parts[0] == "P") {
        if |parts| < 2 { return None; }
        var ref := ParseRef(parts[1]);
        if ref.None? || |parts| < 3 { return None; }
        var pool := ParseToken(parts[2]);
        if pool.None? || |parts| > 3 { return None; }
        if parts[0] == "C" {
          e := e.(consumed := e.consumed + [(ref.value, pool.value)]);
        } else {
          e := e.(produced := e.produced + [(ref.value, pool.value)]);
        }
      } else if |parts| >= 1 && parts[0] == "G" {
        if |parts| < 2 { return None; }
        var pool := ParseToken(parts[1]);
        if pool.None? || |parts| > 2 { return None; }
        e := e.(graduated := e.graduated + [pool.value]);
      } else {
        return None;
      }
    }
    assert lines[..|lines|] == lines;
    r := Some(e);
  }

  // A refused line refuses the whole entry.
  lemma {:induction false} Stuck(lines: seq<string>, n: nat)
    requires n <= |lines|
    ensures ParseLines(lines[..n]).None? ==> ParseLines(lines).None?
    decreases |lines| - n
  {
    hide ParseLine;
    if n == |lines| {
      assert lines[..n] == lines;
    } else {
      Stuck(lines, n + 1);
      assert lines[..n + 1][..n] == lines[..n];
    }
  }

  // ----- the round trip -----

  predicate Plain(line: string) {
    '\n' !in line && '\r' !in line
  }

  // Text that is empty or ends with a line feed.
  predicate Whole(s: string) {
    s == "" || s[|s| - 1] == '\n'
  }

  lemma FindsLast(s: string, c: char)
    requires |s| > 0 && s[|s| - 1] == c
    ensures Find(s, c) < |s|
  {
    hide Find;
    assert forall k :: 0 <= k < Find(s, c) ==> s[k] != c;
  }

  lemma WholeRest(s: string, i: nat)
    requires Whole(s) && i < |s|
    ensures Whole(s[i + 1..])
  {
    var rest := s[i + 1..];
    if |rest| > 0 { assert rest[|rest| - 1] == s[|s| - 1]; }
  }

  lemma LinesStep(s: string)
    requires s != "" && Whole(s)
    ensures Find(s, '\n') < |s| && Whole(s[Find(s, '\n') + 1..])
  {
    FindsLast(s, '\n');
    hide Find, Whole;
    WholeRest(s, Find(s, '\n'));
  }

  lemma FindFirst(s: string, t: string, c: char)
    requires Find(s, c) < |s|
    ensures Find(s + t, c) == Find(s, c)
  {
    assert (s + t)[Find(s, c)] == c;
  }

  // The line up to the first line feed.
  function FirstLine(s: string): string
    requires Find(s, '\n') < |s|
  {
    var i := Find(s, '\n');
    if i > 0 && s[i - 1] == '\r' then s[..i - 1] else s[..i]
  }

  lemma LinesUnfold(s: string)
    requires Find(s, '\n') < |s|
    ensures Lines(s) == [FirstLine(s)] + Lines(s[Find(s, '\n') + 1..])
  {
    hide Find;
  }

  lemma FirstLineKept(s: string, t: string)
    requires Find(s, '\n') < |s|
    ensures Find(s + t, '\n') == Find(s, '\n') && FirstLine(s + t) == FirstLine(s)
    ensures (s + t)[Find(s, '\n') + 1..] == s[Find(s, '\n') + 1..] + t
  {
    FindFirst(s, t, '\n');
    hide Find;
    var i := Find(s, '\n');
    assert (s + t)[..i] == s[..i];
    assert i > 0 ==> (s + t)[..i - 1] == s[..i - 1];
  }

  lemma {:induction false} LinesSplit(s: string, t: string)
    requires Whole(s)
    ensures Lines(s + t) == Lines(s) + Lines(t)
    decreases |s|
  {
    hide Lines, FirstLine, Find, Whole;
    if s == "" {
      NoLines();
      assert s + t == t;
      assert [] + Lines(t) == Lines(t);
    } else {
      LinesStep(s);
      LinesUnfold(s);
      FirstLineKept(s, t);
      LinesUnfold(s + t);
      var first, rest := FirstLine(s), s[Find(s, '\n') + 1..];
      LinesSplit(rest, t);
      assert [first] + (Lines(rest) + Lines(t)) == [first] + Lines(rest) + Lines(t);
    }
  }

  lemma OneLine(line: string)
    requires Plain(line)
    ensures Whole(Ended(line)) && Lines(Ended(line)) == [line]
  {
    FindAt(line, '\n', "");
    var s := Ended(line);
    assert s == line + ['\n'] + "";
    assert s[..|line|] == line && s[|line| + 1..] == "";
    assert Lines("") == [];
  }

  lemma WholeEnds(s: string, line: string)
    requires Whole(s) && Plain(line)
    ensures Whole(s + Ended(line)) && Lines(s + Ended(line)) == Lines(s) + [line]
  {
    LinesSplit(s, Ended(line));
    OneLine(line);
  }

  ghost function PairLines(tag: char, pairs: seq<(OutputRef, Token)>): seq<string> {
    seq(|pairs|, i requires 0 <= i < |pairs| => PairText(tag, pairs[i]))
  }

  ghost function PoolLines(pools: seq<Token>): seq<string> {
    seq(|pools|, i requires 0 <= i < |pools| => PoolText(pools[i]))
  }

  lemma PairParts(tag: char, p: (OutputRef, Token))
    requires tag in {'C', 'P'}
    ensures Split(PairText(tag, p), ' ') == [[tag], RefText(p.0), TokenText(p.1)]
  {
    RefRoundTrip(p.0);
    TokenRoundTrip(p.1);
    hide RefText, TokenText, ParseRef, ParseToken;
    var r, t := RefText(p.0), TokenText(p.1);
    assert PairText(tag, p) == [tag] + [' '] + (r + [' '] + t);
    assert ' ' !in [tag] && ' ' !in r && ' ' !in t;
    assert Split(t, ' ') == [t] by { FindNone(t, ' '); }
    hide Split, PairText, Alphanumeric;
    CutOnce([tag], ' ', r + [' '] + t);
    CutOnce(r, ' ', t);
  }

  lemma PairPlain(tag: char, p: (OutputRef, Token))
    requires tag in {'C', 'P'}
    ensures Plain(PairText(tag, p))
  {
    RefRoundTrip(p.0);
    TokenRoundTrip(p.1);
    hide RefText, TokenText, ParseRef, ParseToken;
  }

  lemma PoolParts(t: Token)
    ensures Plain(PoolText(t)) && Split(PoolText(t), ' ') == ["G", TokenText(t)]
  {
    TokenRoundTrip(t);
    hide TokenText, ParseToken;
    assert PoolText(t) == "G" + [' '] + TokenText(t);
    CutOnce("G", ' ', TokenText(t));
    FindNone(TokenText(t), ' ');
  }

  lemma {:induction false} PairsCut(tag: char, pairs: seq<(OutputRef, Token)>)
    requires tag in {'C', 'P'}
    ensures Whole(PairsText(tag, pairs)) && Lines(PairsText(tag, pairs)) == PairLines(tag, pairs)
  {
    hide Whole, Lines, Ended, Plain, PairText;
    if pairs == [] {
      NoLines();
    } else {
      var n := |pairs| - 1;
      PairsCut(tag, pairs[..n]);
      PairPlain(tag, pairs[n]);
      WholeEnds(PairsText(tag, pairs[..n]), PairText(tag, pairs[n]));
    }
  }

  lemma NoLines()
    ensures Whole("") && Lines("") == []
  {
  }

  lemma {:induction false} PoolsCut(pools: seq<Token>)
    ensures Whole(PoolsText(pools)) && Lines(PoolsText(pools)) == PoolLines(pools)
  {
    hide Whole, Lines, Ended, Plain, PoolText;
    if pools == [] {
      NoLines();
    } else {
      var n := |pools| - 1;
      PoolsCut(pools[..n]);
      PoolParts(pools[n]);
      WholeEnds(PoolsText(pools[..n]), PoolText(pools[n]));
    }
  }

  lemma EntryCut(e: Entry)
    ensures Lines(EntryText(e)) == PairLines('C', e.consumed) + PairLines('P', e.produced) + PoolLines(e.graduated)
  {
    PairsCut('C', e.consumed);
    PairsCut('P', e.produced);
    PoolsCut(e.graduated);
    hide Lines, PairsText, PoolsText, PairLines, PoolLines;
    var c, p, g := PairsText('C', e.consumed), PairsText('P', e.produced), PoolsText(e.graduated);
    LinesSplit(c, p);
    LinesSplit(c + p, g);
  }

  // `e` with more records of one kind.
  function WithPairs(e: Entry, tag: char, pairs: seq<(OutputRef, Token)>): Entry {
    if tag == 'C' then e.(consumed := e.consumed + pairs) else e.(produced := e.produced + pairs)
  }

  lemma WithMore(e: Entry, tag: char, a: seq<(OutputRef, Token)>, b: seq<(OutputRef, Token)>)
    ensures WithPairs(WithPairs(e, tag, a), tag, b) == WithPairs(e, tag, a + b) && WithPairs(e, tag, []) == e
  {
    assert e.consumed + [] == e.consumed && e.produced + [] == e.produced;
    assert e.consumed + a + b == e.consumed + (a + b) && e.produced + a + b == e.produced + (a + b);
  }

  lemma PairRead(e: Entry, tag: char, p: (OutputRef, Token))
    requires tag in {'C', 'P'}
    ensures ParseLine(e, PairText(tag, p)) == Some(WithPairs(e, tag, [p]))
  {
    hide Split, PairText, RefText, TokenText, ParseRef, ParseToken, WithPairs, ParseLine;
    PairParts(tag, p);
    RefRoundTrip(p.0);
    TokenRoundTrip(p.1);
    PartsRead(e, PairText(tag, p), tag, RefText(p.0), TokenText(p.1), p.0, p.1);
  }

  lemma PartsRead(e: Entry, line: string, tag: char, ref: string, token: string, r: OutputRef, t: Token)
    requires tag in {'C', 'P'} && Split(line, ' ') == [[tag], ref, token]
    requires ParseRef(ref) == Some(r) && ParseToken(token) == Some(t)
    ensures ParseLine(e, line) == Some(WithPairs(e, tag, [(r, t)]))
  {
    hide Split, ParseRef, ParseToken;
  }

  lemma PoolRead(e: Entry, t: Token)
    ensures ParseLine(e, PoolText(t)) == Some(e.(graduated := e.graduated + [t]))
  {
    PoolParts(t);
    TokenRoundTrip(t);
    hide Split, PoolText, TokenText, ParseToken;
  }

  lemma ParseOneMore(lines: seq<string>, line: string)
    ensures ParseLines(lines + [line]) ==
      match ParseLines(lines)
      case Some(e) => ParseLine(e, line)
      case None => None
  {
    hide ParseLine;
    assert (lines + [line])[..|lines|] == lines;
  }

  lemma {:induction false} PairsRead(lines: seq<string>, e: Entry, tag: char, pairs: seq<(OutputRef, Token)>)
    requires tag in {'C', 'P'} && ParseLines(lines) == Some(e)
    ensures ParseLines(lines + PairLines(tag, pairs)) == Some(WithPairs(e, tag, pairs))
    decreases |pairs|
  {
    hide ParseLines, ParseLine, PairText, WithPairs;
    if pairs == [] {
      WithMore(e, tag, [], []);
      assert lines + PairLines(tag, pairs) == lines;
    } else {
      var n := |pairs| - 1;
      PairsRead(lines, e, tag, pairs[..n]);
      assert lines + PairLines(tag, pairs) == lines + PairLines(tag, pairs[..n]) + [PairText(tag, pairs[n])];
      ParseOneMore(lines + PairLines(tag, pairs[..n]), PairText(tag, pairs[n]));
      PairRead(WithPairs(e, tag, pairs[..n]), tag, pairs[n]);
      WithMore(e, tag, pairs[..n], [pairs[n]]);
      assert pairs[..n] + [pairs[n]] == pairs;
    }
  }

  lemma {:induction false} PoolsRead(lines: seq<string>, e: Entry, pools: seq<Token>)
    requires ParseLines(lines) == Some(e)
    ensures ParseLines(lines + PoolLines(pools)) == Some(e.(graduated := e.graduated + pools))
    decreases |pools|
  {
    hide ParseLines, ParseLine, PoolText;
    if pools == [] {
      assert lines + PoolLines(pools) == lines && e.graduated + pools == e.graduated;
    } else {
      var n := |pools| - 1;
      PoolsRead(lines, e, pools[..n]);
      assert lines + PoolLines(pools) == lines + PoolLines(pools[..n]) + [PoolText(pools[n])];
      ParseOneMore(lines + PoolLines(pools[..n]), PoolText(pools[n]));
      PoolRead(e.(graduated := e.graduated + pools[..n]), pools[n]);
      assert e.graduated + pools[..n] + [pools[n]] == e.graduated + pools;
    }
  }

  // Parsing an encoded entry gives the entry back.
  lemma EntryRoundTrip(e: Entry)
    ensures ParseEntry(EntryText(e)) == Some(e)
  {
    EntryCut(e);
    hide EntryText, Lines, PairLines, PoolLines;
    assert ParseLines([]) == Some(EMPTY_ENTRY);
    hide ParseLines;
    var c, p, g := PairLines('C', e.consumed), PairLines('P', e.produced), PoolLines(e.graduated);
    PairsRead([], EMPTY_ENTRY, 'C', e.consumed);
    assert [] + c == c && [] + e.consumed == e.consumed;
    assert [] + e.produced == e.produced && [] + e.graduated == e.graduated;
    PairsRead(c, Entry(e.consumed, [], []), 'P', e.produced);
    PoolsRead(c + p, Entry(e.consumed, e.produced, []), e.graduated);
  }
}
