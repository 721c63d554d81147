/// The names under which a coordination context puts its values, as text, and
/// how a name is read back.
module KeyNames {
  import opened Wrappers

  // ---- numbers ----

  function Digit(d: nat): char
    requires d < 10
  {
    (('0' as int) + d) as char
  }

  function Decimal(n: nat): (text: string) {
    if n < 10 then [Digit(n)] else Decimal(n / 10) + [Digit(n % 10)]
  }

  predicate IsNumber(text: string) {
    |text| > 0 && forall i :: 0 <= i < |text| ==> '0' <= text[i] <= '9'
  }

  function ValueOf(text: string): nat
    requires IsNumber(text)
  {
    var last := text[|text| - 1] as int - '0' as int;
    if |text| == 1 then last else ValueOf(text[..|text| - 1]) * 10 + last
  }

  lemma {:induction false} DecimalValue(n: nat)
    ensures IsNumber(Decimal(n)) && ValueOf(Decimal(n)) == n
  {
    if n >= 10 {
      DecimalValue(n / 10);
      assert Decimal(n)[..|Decimal(n)| - 1] == Decimal(n / 10);
    }
  }

  function Signed(i: int): string {
    if i < 0 then "-" + Decimal(-i) else Decimal(i)
  }

  function SignedValue(text: string): int {
    if |text| > 0 && text[0] == '-' && IsNumber(text[1..]) then 0 - ValueOf(text[1..])
    else if IsNumber(text) then ValueOf(text) else 0
  }

  lemma SignedRoundTrip(i: int)
    ensures SignedValue(Signed(i)) == i && IsToken(Signed(i))
  {
    DecimalValue(if i < 0 then -i else i);
    if i < 0 { assert Signed(i)[1..] == Decimal(-i); }
  }

  // ---- paths of tokens ----

  predicate IsToken(text: string) {
    '/' !in text
  }

  predicate AreTokens(tokens: seq<string>) {
    forall i :: 0 <= i < |tokens| ==> IsToken(tokens[i])
  }

  function Join(tokens: seq<string>): string
    requires |tokens| > 0
  {
    if |tokens| == 1 then tokens[0] else tokens[0] + "/" + Join(tokens[1..])
  }

  function FirstSlash(text: string): (i: nat)
    ensures i <= |text|
    ensures forall j :: 0 <= j < i ==> text[j] != '/'
    ensures i < |text| ==> text[i] == '/'
  {
    if text == "" then 0
    else if text[0] == '/' then 0
    else
      assert forall j :: 0 < j < |text| ==> text[j] == text[1..][j - 1];
      1 + FirstSlash(text[1..])
  }

  function Split(text: string): (tokens: seq<string>)
    ensures |tokens| > 0
    decreases |text|
  {
    var i := FirstSlash(text);
    if i == |text| then [text] else [text[..i]] + Split(text[i + 1..])
  }

  lemma {:induction false} SplitJoin(tokens: seq<string>)
    requires |tokens| > 0 && AreTokens(tokens)
    ensures Split(Join(tokens)) == tokens
  {
    var text, t := Join(tokens), tokens[0];
    if |tokens| == 1 {
      assert FirstSlash(t) == |t|;
    } else {
      SplitJoin(tokens[1..]);
      assert text[..|t|] == t && text[|t|] == '/' && text[|t| + 1..] == Join(tokens[1..]);
      assert FirstSlash(text) == |t|;
    }
  }

  lemma {:induction false} JoinConcat(a: seq<string>, b: seq<string>)
    requires |a| > 0 && |b| > 0
    ensures Join(a + b) == Join(a) + "/" + Join(b)
  {
    if |a| == 1 {
      assert (a + b)[1..] == b;
    } else {
      assert (a + b)[1..] == a[1..] + b;
      JoinConcat(a[1..], b);
      assert a[0] + "/" + (Join(a[1..]) + "/" + Join(b)) == (a[0] + "/" + Join(a[1..])) + "/" + Join(b);
    }
  }

  // ---- names ----

  const DUPLICATE := "duplicate"
  const GROUP := "group"
  const MESSAGE := "message"
  const COLLECTIVE := "collective"
  const ALL_GATHER := "all_gather"
  const BROADCAST := "broadcast"
  const ACK := "ack"

  lemma WordsApart()
    ensures !IsNumber(DUPLICATE) && !IsNumber(GROUP) && !IsNumber(MESSAGE) && !IsNumber(COLLECTIVE)
    ensures DUPLICATE != GROUP && DUPLICATE != MESSAGE && DUPLICATE != COLLECTIVE
    ensures GROUP != MESSAGE && GROUP != COLLECTIVE && MESSAGE != COLLECTIVE && ALL_GATHER != BROADCAST
    ensures IsToken(DUPLICATE) && IsToken(GROUP) && IsToken(MESSAGE) && IsToken(COLLECTIVE)
    ensures IsToken(ALL_GATHER) && IsToken(BROADCAST) && IsToken(ACK)
  {
    assert DUPLICATE[0] == 'd' && GROUP[0] == 'g' && MESSAGE[0] == 'm' && COLLECTIVE[0] == 'c';
    assert ALL_GATHER[0] == 'a' && BROADCAST[0] == 'b';
  }


  /// How a context was made from its parent: the n-th duplicate, or the n-th
  /// subgroup of these of the parent's ranks.
  datatype Step = Duplicate(n: nat) | Group(ranks: seq<nat>, n: nat)

  type Path = seq<Step>

  datatype Key =
    | Message(path: Path, src: nat, dst: nat, tag: int, n: nat)
    | Ack(path: Path, src: nat, dst: nat, tag: int, n: nat)
    | AllGather(path: Path, n: nat, rank: nat)
    | Broadcast(path: Path, n: nat, root: nat)

  function Decimals(ranks: seq<nat>): (t: seq<string>)
    ensures |t| == |ranks|
  {
    seq(|ranks|, i requires 0 <= i < |ranks| => Decimal(ranks[i]))
  }

  function StepTokens(step: Step): (t: seq<string>)
    ensures |t| > 0
  {
    match step
    case Duplicate(n) => [DUPLICATE, Decimal(n)]
    case Group(ranks, n) => [GROUP] + Decimals(ranks) + [Decimal(n)]
  }

  function PathTokens(path: Path): seq<string> {
    if path == [] then [] else StepTokens(path[0]) + PathTokens(path[1..])
  }

  function ChannelTokens(src: nat, dst: nat, tag: int): (t: seq<string>)
    ensures |t| > 0
  {
    [MESSAGE, Decimal(src), Decimal(dst), Signed(tag)]
  }

  function OperationTokens(key: Key): (t: seq<string>)
    ensures |t| > 0
  {
    match key
    case Message(_, src, dst, tag, n) => ChannelTokens(src, dst, tag) + [Decimal(n)]
    case Ack(_, src, dst, tag, n) => ChannelTokens(src, dst, tag) + [Decimal(n), ACK]
    case AllGather(_, n, rank) => [COLLECTIVE, Decimal(n), ALL_GATHER, Decimal(rank)]
    case Broadcast(_, n, root) => [COLLECTIVE, Decimal(n), BROADCAST, Decimal(root)]
  }

  function RootTokens(): seq<string> { ["libtt", "control"] }

  function PrefixText(path: Path): string { Join(RootTokens() + PathTokens(path)) }

  function KeyText(key: Key): string { Join(RootTokens() + PathTokens(key.path) + OperationTokens(key)) }

  // ---- reading a name back ----

  /// How many tokens in a row are numbers.
  function NumberRun(tokens: seq<string>): (k: nat)
    ensures k <= |tokens| && forall i :: 0 <= i < k ==> IsNumber(tokens[i])
    ensures k < |tokens| ==> !IsNumber(tokens[k])
  {
    if tokens == [] || !IsNumber(tokens[0]) then 0
    else
      assert forall i :: 0 < i < |tokens| ==> tokens[i] == tokens[1..][i - 1];
      1 + NumberRun(tokens[1..])
  }

  function Values(tokens: seq<string>): (r: seq<nat>)
    requires forall i :: 0 <= i < |tokens| ==> IsNumber(tokens[i])
    ensures |r| == |tokens|
  {
    seq(|tokens|, i requires 0 <= i < |tokens| => ValueOf(tokens[i]))
  }

  /// A group's ranks and sequence number, and the tokens after them.
  function TakeGroup(tokens: seq<string>): (r: (Step, seq<string>))
    requires NumberRun(tokens) > 0
    ensures |r.1| < |tokens|
  {
    var k := NumberRun(tokens);
    var numbers := Values(tokens[..k]);
    (Group(numbers[..k - 1], numbers[k - 1]), tokens[k..])
  }

  /// The steps a token list begins with, and the tokens after them.
  function ParsePath(tokens: seq<string>): (Path, seq<string>)
    decreases |tokens|
  {
    if |tokens| >= 2 && tokens[0] == DUPLICATE && IsNumber(tokens[1]) then
      var (path, rest) := ParsePath(tokens[2..]);
      ([Duplicate(ValueOf(tokens[1]))] + path, rest)
    else if |tokens| >= 1 && tokens[0] == GROUP && NumberRun(tokens[1..]) > 0 then
      var (step, after) := TakeGroup(tokens[1..]);
      var (path, rest) := ParsePath(after);
      ([step] + path, rest)
    else ([], tokens)
  }

  function ParseOperation(path: Path, t: seq<string>): Option<Key> {
    if |t| >= 5 && t[0] == MESSAGE && IsNumber(t[1]) && IsNumber(t[2]) && IsNumber(t[4]) then
      if |t| == 5 then Some(Message(path, ValueOf(t[1]), ValueOf(t[2]), SignedValue(t[3]), ValueOf(t[4])))
      else if |t| == 6 && t[5] == ACK
        then Some(Ack(path, ValueOf(t[1]), ValueOf(t[2]), SignedValue(t[3]), ValueOf(t[4])))
      else None
    else if |t| == 4 && t[0] == COLLECTIVE && IsNumber(t[1]) && IsNumber(t[3]) then
      if t[2] == ALL_GATHER then Some(AllGather(path, ValueOf(t[1]), ValueOf(t[3])))
      else if t[2] == BROADCAST then Some(Broadcast(path, ValueOf(t[1]), ValueOf(t[3])))
      else None
    else None
  }

  function Decode(text: string): Option<Key> {
    var tokens := Split(text);
    if |tokens| < 2 || tokens[..2] != RootTokens() then None
    else
      var (path, rest) := ParsePath(tokens[2..]);
      ParseOperation(path, rest)
  }

  lemma NumberRunEnds(numbers: seq<string>, rest: seq<string>)
    requires forall i :: 0 <= i < |numbers| ==> IsNumber(numbers[i])
    requires |rest| > 0 && !IsNumber(rest[0])
    ensures NumberRun(numbers + rest) == |numbers|
  {
    var all := numbers + rest;
    assert forall i :: 0 <= i < |numbers| ==> all[i] == numbers[i];
    assert all[|numbers|] == rest[0];
  }

  lemma DecimalsAre(ranks: seq<nat>)
    ensures forall i :: 0 <= i < |ranks| ==> IsNumber(Decimals(ranks)[i])
    ensures Values(Decimals(ranks)) == ranks
  {
    forall i | 0 <= i < |ranks| ensures IsNumber(Decimals(ranks)[i]) && ValueOf(Decimals(ranks)[i]) == ranks[i] {
      DecimalValue(ranks[i]);
    }
  }

  lemma ParseDuplicate(n: nat, tail: seq<string>)
    ensures ParsePath(StepTokens(Duplicate(n)) + tail) == ([Duplicate(n)] + ParsePath(tail).0, ParsePath(tail).1)
  {
    hide Decimal, DUPLICATE, GROUP, MESSAGE, COLLECTIVE;
    WordsApart();
    DecimalValue(n);
    assert (StepTokens(Duplicate(n)) + tail)[2..] == tail;
  }

  /// A group's numbers end where the next word begins, so group prefixes that
  /// are textual prefixes of one another are still told apart.
  lemma TakeGroupOf(ranks: seq<nat>, n: nat, tail: seq<string>)
    requires |tail| > 0 && !IsNumber(tail[0])
    ensures NumberRun(Decimals(ranks) + [Decimal(n)] + tail) > 0
    ensures TakeGroup(Decimals(ranks) + [Decimal(n)] + tail) == (Group(ranks, n), tail)
  {
    hide Decimal, IsNumber, NumberRun, Decimals;
    var numbers := Decimals(ranks) + [Decimal(n)];
    GroupNumbers(ranks, n);
    NumberRunEnds(numbers, tail);
    assert (numbers + tail)[..|numbers|] == numbers && (numbers + tail)[|numbers|..] == tail;
  }

  lemma ParseGroup(ranks: seq<nat>, n: nat, tail: seq<string>)
    requires |tail| > 0 && !IsNumber(tail[0])
    ensures ParsePath(StepTokens(Group(ranks, n)) + tail) == ([Group(ranks, n)] + ParsePath(tail).0, ParsePath(tail).1)
  {
    hide *;
    TakeGroupOf(ranks, n, tail);
    GroupTokens(ranks, n, tail);
    ParseOneGroup(StepTokens(Group(ranks, n)) + tail);
  }

  lemma GroupTokens(ranks: seq<nat>, n: nat, tail: seq<string>)
    ensures |StepTokens(Group(ranks, n)) + tail| > 0 && (StepTokens(Group(ranks, n)) + tail)[0] == GROUP
    ensures (StepTokens(Group(ranks, n)) + tail)[1..] == Decimals(ranks) + [Decimal(n)] + tail
  {
    hide Decimal, Decimals, GROUP;
  }

  lemma ParseOneGroup(tokens: seq<string>)
    requires |tokens| > 0 && tokens[0] == GROUP && NumberRun(tokens[1..]) > 0
    ensures ParsePath(tokens) == ([TakeGroup(tokens[1..]).0] + ParsePath(TakeGroup(tokens[1..]).1).0,
                                  ParsePath(TakeGroup(tokens[1..]).1).1)
  {
    hide IsNumber, DUPLICATE, GROUP, TakeGroup, NumberRun, ValueOf;
    WordsApart();
  }

  lemma {:induction false} ParsePathTokens(path: Path, rest: seq<string>)
    requires |rest| > 0 && (rest[0] == MESSAGE || rest[0] == COLLECTIVE)
    ensures ParsePath(PathTokens(path) + rest) == (path, rest)
  {
    hide Decimal, IsNumber, DUPLICATE, GROUP, MESSAGE, COLLECTIVE, StepTokens;
    WordsApart();
    if path == [] {
      assert PathTokens(path) + rest == rest;
    } else {
      hide ParsePath;
      var tail := PathTokens(path[1..]) + rest;
      ParsePathTokens(path[1..], rest);
      assert PathTokens(path) + rest == StepTokens(path[0]) + tail;
      assert path == [path[0]] + path[1..];
      FirstWord(path[1..], rest);
      match path[0]
      case Duplicate(n) => ParseDuplicate(n, tail);
      case Group(ranks, n) => ParseGroup(ranks, n, tail);
    }
  }

  lemma FirstWord(path: Path, rest: seq<string>)
    requires |rest| > 0 && !IsNumber(rest[0])
    ensures |PathTokens(path) + rest| > 0 && !IsNumber((PathTokens(path) + rest)[0])
  {
    hide IsNumber, Decimal, DUPLICATE, GROUP;
    WordsApart();
    if path != [] { assert (PathTokens(path) + rest)[0] == StepTokens(path[0])[0]; }
  }

  lemma GroupNumbers(ranks: seq<nat>, n: nat)
    ensures forall i :: 0 <= i < |ranks| + 1 ==> IsNumber((Decimals(ranks) + [Decimal(n)])[i])
    ensures Values(Decimals(ranks) + [Decimal(n)])[..|ranks|] == ranks
      && Values(Decimals(ranks) + [Decimal(n)])[|ranks|] == n
  {
    DecimalsAre(ranks);
    DecimalValue(n);
    var numbers := Decimals(ranks) + [Decimal(n)];
    forall i | 0 <= i < |ranks| ensures Values(numbers)[i] == ranks[i] {
      assert numbers[i] == Decimals(ranks)[i];
      assert Values(Decimals(ranks))[i] == ranks[i];
    }
  }

  lemma {:induction false} PathIsTokens(path: Path)
    ensures AreTokens(PathTokens(path))
  {
    hide Decimal, DUPLICATE, GROUP, IsToken;
    WordsApart();
    if path != [] {
      PathIsTokens(path[1..]);
      match path[0]
      case Duplicate(n) =>
        NumberIsToken(n);
      case Group(ranks, n) =>
        NumberIsToken(n);
        forall i | 0 <= i < |ranks| ensures IsToken(Decimals(ranks)[i]) { NumberIsToken(ranks[i]); }
    }
  }

  lemma NumberIsToken(n: nat)
    ensures IsToken(Decimal(n))
  {
    DecimalValue(n);
  }

  lemma OperationIsTokens(key: Key)
    ensures AreTokens(OperationTokens(key))
  {
    hide Decimal, MESSAGE, COLLECTIVE, ALL_GATHER, BROADCAST, ACK, Signed, IsToken;
    WordsApart();
    match key
    case Message(_, src, dst, tag, n) =>
      NumberIsToken(src); NumberIsToken(dst); SignedRoundTrip(tag); NumberIsToken(n);
    case Ack(_, src, dst, tag, n) =>
      NumberIsToken(src); NumberIsToken(dst); SignedRoundTrip(tag); NumberIsToken(n);
    case AllGather(_, n, rank) =>
      NumberIsToken(n); NumberIsToken(rank);
    case Broadcast(_, n, root) =>
      NumberIsToken(n); NumberIsToken(root);
  }

  lemma ParseOperationTokens(key: Key)
    ensures ParseOperation(key.path, OperationTokens(key)) == Some(key)
    ensures OperationTokens(key)[0] == MESSAGE || OperationTokens(key)[0] == COLLECTIVE
  {
    hide Decimal, MESSAGE, COLLECTIVE, ALL_GATHER, BROADCAST, ACK, Signed, SignedValue;
    WordsApart();
    match key
    case Message(_, src, dst, tag, n) =>
      DecimalValue(src); DecimalValue(dst); SignedRoundTrip(tag); DecimalValue(n);
    case Ack(_, src, dst, tag, n) =>
      DecimalValue(src); DecimalValue(dst); SignedRoundTrip(tag); DecimalValue(n);
    case AllGather(_, n, rank) =>
      DecimalValue(n); DecimalValue(rank);
    case Broadcast(_, n, root) =>
      DecimalValue(n); DecimalValue(root);
  }

  /// Every name reads back as the key it was made for.
  lemma DecodeKeyText(key: Key)
    ensures Decode(KeyText(key)) == Some(key)
  {
    hide Decimal, Join, Split, PathTokens, ParsePath, ParseOperation, OperationTokens, MESSAGE, COLLECTIVE;
    var tokens := RootTokens() + PathTokens(key.path) + OperationTokens(key);
    PathIsTokens(key.path);
    OperationIsTokens(key);
    SplitJoin(tokens);
    ParseOperationTokens(key);
    ParsePathTokens(key.path, OperationTokens(key));
    assert tokens[2..] == PathTokens(key.path) + OperationTokens(key) && tokens[..2] == RootTokens();
  }

  /// Distinct keys have distinct names.
  lemma KeysApart(a: Key, b: Key)
    requires KeyText(a) == KeyText(b)
    ensures a == b
  {
    hide KeyText, Decode;
    DecodeKeyText(a);
    DecodeKeyText(b);
  }

  /// A key's name begins with its context's prefix.
  lemma PrefixOfKey(key: Key)
    ensures KeyText(key) == PrefixText(key.path) + "/" + Join(OperationTokens(key))
  {
    JoinConcat(RootTokens() + PathTokens(key.path), OperationTokens(key));
  }

  /// Distinct contexts have distinct prefixes.
  lemma PrefixesApart(a: Path, b: Path)
    requires PrefixText(a) == PrefixText(b)
    ensures a == b
  {
    hide PrefixText, OperationTokens, KeyText, Join;
    PrefixOfKey(AllGather(a, 0, 0));
    PrefixOfKey(AllGather(b, 0, 0));
    SameOperation(a, b);
    KeysApart(AllGather(a, 0, 0), AllGather(b, 0, 0));
  }

  lemma SameOperation(a: Path, b: Path)
    ensures OperationTokens(AllGather(a, 0, 0)) == OperationTokens(AllGather(b, 0, 0))
  {}

  /// A child's prefix is its parent's with the step's tokens.
  lemma {:induction false} PathTokensConcat(a: Path, b: Path)
    ensures PathTokens(a + b) == PathTokens(a) + PathTokens(b)
  {
    if a == [] {
      assert a + b == b;
    } else {
      assert (a + b)[1..] == a[1..] + b;
      PathTokensConcat(a[1..], b);
    }
  }

  lemma ChildPrefix(path: Path, step: Step)
    ensures PrefixText(path + [step]) == PrefixText(path) + "/" + Join(StepTokens(step))
  {
    hide Join, StepTokens;
    PathTokensConcat(path, [step]);
    assert PathTokens([step]) == StepTokens(step) + PathTokens([]);
    assert PathTokens([step]) == StepTokens(step);
    assert RootTokens() + (PathTokens(path) + StepTokens(step)) == (RootTokens() + PathTokens(path)) + StepTokens(step);
    JoinConcat(RootTokens() + PathTokens(path), StepTokens(step));
  }
}
