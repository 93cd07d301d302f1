/**
 Text formats of the room registry: the node value stored in Redis and published to other nodes,
 and the `key=value` messages of the two pub/sub channels.
 */
module NodeValues {
  import opened Options

  const U64: nat := 0x1_0000_0000_0000_0000

  /** Coordinates are in millionths of a degree, the precision of the text form. */
  datatype NodeInfo = NodeInfo(
    address: string, rooms: nat, maxRooms: nat, lat: int, lng: int, isp: string, country: string)

  const NO_NODE := NodeInfo("", 0, 0, 0, 0, "", "")

  // ---------------------------------------------------------------------------
  // Searching and splitting
  // ---------------------------------------------------------------------------

  /** Position of the first `c`, or the length. */
  function Find(s: string, c: char): (i: nat)
    ensures i <= |s|
    ensures i < |s| ==> s[i] == c
  {
    if s == "" || s[0] == c then 0 else 1 + Find(s[1..], c)
  }

  lemma {:induction false} FindIsFirst(s: string, c: char)
    ensures c !in s[..Find(s, c)]
    ensures Find(s, c) == |s| <==> c !in s
  {
    if s != "" && s[0] != c {
      var j := Find(s[1..], c);
      FindIsFirst(s[1..], c);
      assert s == [s[0]] + s[1..];
      assert s[..j + 1] == [s[0]] + s[1..][..j];
    }
  }

  lemma {:induction false} FindInConcat(a: string, c: char, b: string)
    requires c !in a
    ensures Find(a + [c] + b, c) == |a|
  {
    if a != "" {
      FindInConcat(a[1..], c, b);
      assert (a + [c] + b)[1..] == a[1..] + [c] + b;
    }
  }

  /** The tokens that repeated getline yields: no empty token after a trailing separator. */
  function Tokens(s: string): seq<string>
    decreases |s|
  {
    if s == "" then []
    else
      var i := Find(s, '|');
      [s[..i]] + if i == |s| then [] else Tokens(s[i + 1..])
  }

  /** Where the token that starts at `at` ends. */
  method TokenEnd(s: string, at: nat) returns (end: nat)
    requires at <= |s|
    ensures at <= end <= |s| && end - at == Find(s[at..], '|')
  {
    end := at;
    while end < |s| && s[end] != '|'
      invariant at <= end <= |s| && '|' !in s[at..end]
    {
      end := end + 1;
    }
    if end < |s| {
      assert s[at..] == s[at..end] + ['|'] + s[end + 1..];
      FindInConcat(s[at..end], '|', s[end + 1..]);
    } else {
      assert s[at..] == s[at..end];
      FindIsFirst(s[at..], '|');
    }
  }

  method SplitTokens(s: string) returns (parts: seq<string>)
    ensures parts == Tokens(s)
  {
    parts := [];
    var at := 0;
    while at < |s|
      invariant at <= |s| && parts + Tokens(s[at..]) == Tokens(s)
    {
      var end := TokenEnd(s, at);
      var next := if end < |s| then end + 1 else |s|;
      assert parts + [s[at..end]] + Tokens(s[next..]) == Tokens(s) by {
        TokensFrom(s, at, end);
        assert parts + [s[at..end]] + Tokens(s[next..]) == parts + ([s[at..end]] + Tokens(s[next..]));
      }
      parts, at := parts + [s[at..end]], next;
    }
  }

  lemma {:induction false} TokensFrom(s: string, at: nat, end: nat)
    requires at < |s| && at <= end <= |s| && end - at == Find(s[at..], '|')
    ensures Tokens(s[at..]) == [s[at..end]] + Tokens(s[if end < |s| then end + 1 else |s|..])
  {
    var next := if end < |s| then end + 1 else |s|;
    SuffixSlices(s, at, end, next);
    TokensUnfold(s[at..], s[at..end], s[next..]);
  }

  lemma {:induction false} SuffixSlices(s: string, at: nat, end: nat, next: nat)
    requires at <= end <= next <= |s|
    ensures s[at..][..end - at] == s[at..end] && s[at..][next - at..] == s[next..]
  {
  }

  lemma {:induction false} TokensUnfold(s: string, head: string, tail: string)
    requires s != "" && head == s[..Find(s, '|')]
    requires tail == s[if |head| < |s| then |head| + 1 else |s|..]
    ensures Tokens(s) == [head] + Tokens(tail)
  {
    var i := Find(s, '|');
    assert |head| == i;
    if i == |s| {
      assert tail == "" && Tokens(tail) == [];
    } else {
      assert tail == s[i + 1..];
    }
  }

  predicate BarFree(s: string) {
    '|' !in s
  }

  lemma {:induction false} TokensAreBarFree(s: string)
    ensures forall i :: 0 <= i < |Tokens(s)| ==> BarFree(Tokens(s)[i])
    decreases |s|
  {
    if s != "" {
      var i := Find(s, '|');
      FindIsFirst(s, '|');
      if i < |s| { TokensAreBarFree(s[i + 1..]); }
    }
  }

  function Join(fs: seq<string>): string
    requires fs != []
  {
    if |fs| == 1 then fs[0] else fs[0] + ['|'] + Join(fs[1..])
  }

  lemma {:induction false} TokensCons(a: string, tail: string)
    requires BarFree(a)
    ensures Tokens(a + ['|'] + tail) == [a] + Tokens(tail)
  {
    var s := a + ['|'] + tail;
    FindInConcat(a, '|', tail);
    assert s[..|a|] == a && s[|a| + 1..] == tail;
  }

  function DropEmptyLast(fs: seq<string>): seq<string>
    requires fs != []
  {
    if fs[|fs| - 1] == "" then fs[..|fs| - 1] else fs
  }

  /** Splitting undoes joining, but for a trailing empty field. */
  lemma {:induction false} TokensOfJoin(fs: seq<string>)
    requires fs != [] && forall i :: 0 <= i < |fs| ==> BarFree(fs[i])
    ensures Tokens(Join(fs)) == DropEmptyLast(fs)
  {
    if |fs| == 1 {
      FindIsFirst(fs[0], '|');
      assert fs[0] == "" || fs[0][..|fs[0]|] == fs[0];
    } else {
      var tail := fs[1..];
      assert Tokens(Join(fs)) == [fs[0]] + Tokens(Join(tail)) by { TokensCons(fs[0], Join(tail)); }
      assert Tokens(Join(tail)) == DropEmptyLast(tail) by { TokensOfJoin(tail); }
      assert [fs[0]] + DropEmptyLast(tail) == DropEmptyLast(fs);
    }
  }

  // ---------------------------------------------------------------------------
  // Numbers
  // ---------------------------------------------------------------------------

  function Digit(d: nat): char
    requires d < 10
  {
    ['0', '1', '2', '3', '4', '5', '6', '7', '8', '9'][d]
  }

  predicate IsDigit(c: char) {
    '0' <= c <= '9'
  }

  function DigitValue(c: char): nat
    requires IsDigit(c)
  {
    c as int - '0' as int
  }

  /** The last k decimal digits. */
  function Padded(n: nat, k: nat): (s: string)
    ensures |s| == k && forall i :: 0 <= i < k ==> IsDigit(s[i])
  {
    if k == 0 then "" else Padded(n / 10, k - 1) + [Digit(n % 10)]
  }

  /** std::to_string of an unsigned number. */
  function Decimal(n: nat): (s: string)
    ensures s != "" && forall i :: 0 <= i < |s| ==> IsDigit(s[i])
  {
    if n < 10 then [Digit(n)] else Decimal(n / 10) + [Digit(n % 10)]
  }

  function Value(s: string): nat
    requires forall i :: 0 <= i < |s| ==> IsDigit(s[i])
  {
    if s == "" then 0 else 10 * Value(s[..|s| - 1]) + DigitValue(s[|s| - 1])
  }

  /** Decimal digit i of a number, counted from the last one. */
  function DigitOf(n: nat, i: nat): nat {
    if i == 0 then n % 10 else DigitOf(n / 10, i - 1)
  }

  /** The text has the digits of the number, the last one last, and no leading zero. */
  lemma {:induction false} DecimalPlaces(n: nat, i: nat)
    requires i < |Decimal(n)|
    ensures DigitValue(Decimal(n)[|Decimal(n)| - 1 - i]) == DigitOf(n, i)
    ensures Decimal(n)[0] == '0' ==> n == 0
  {
    if n >= 10 {
      var s, front := Decimal(n), Decimal(n / 10);
      DecimalPlaces(n / 10, if i == 0 then 0 else i - 1);
      assert s[0] == front[0];
      if i > 0 { assert s[|s| - 1 - i] == front[|front| - 1 - (i - 1)]; }
    }
  }

  lemma {:induction false} PaddedPlaces(n: nat, k: nat, i: nat)
    requires i < k
    ensures DigitValue(Padded(n, k)[k - 1 - i]) == DigitOf(n, i)
  {
    if i > 0 { PaddedPlaces(n / 10, k - 1, i - 1); }
  }

  lemma {:induction false} ValueOfDecimal(n: nat)
    ensures Value(Decimal(n)) == n
  {
    if n < 10 {
      assert [Digit(n)][..0] == "";
    } else {
      ValueOfDecimal(n / 10);
      var s := Decimal(n);
      assert s[..|s| - 1] == Decimal(n / 10);
    }
  }

  function Pow10(k: nat): nat {
    if k == 0 then 1 else 10 * Pow10(k - 1)
  }

  lemma {:induction false} ValueOfPadded(n: nat, k: nat)
    requires n < Pow10(k)
    ensures Value(Padded(n, k)) == n
  {
    if k > 0 {
      assert n / 10 < Pow10(k - 1);
      ValueOfPadded(n / 10, k - 1);
      var s := Padded(n, k);
      assert s[..k - 1] == Padded(n / 10, k - 1) && s[k - 1] == Digit(n % 10);
      assert DigitValue(Digit(n % 10)) == n % 10;
    }
  }

  function DigitRun(s: string): (n: nat)
    ensures n <= |s| && forall i :: 0 <= i < n ==> IsDigit(s[i])
    ensures n < |s| ==> !IsDigit(s[n])
  {
    if s == "" || !IsDigit(s[0]) then 0 else 1 + DigitRun(s[1..])
  }

  predicate IsSpace(c: char) {
    c == ' ' || '\t' <= c <= '\r'
  }

  /** std::stoul; None is an exception, which leaves the default in place. */
  function ParseUnsigned(s: string): Option<nat> {
    if s != "" && IsSpace(s[0]) then ParseUnsigned(s[1..])
    else
      var signed := s != "" && (s[0] == '-' || s[0] == '+');
      var t := if signed then s[1..] else s;
      var n := DigitRun(t);
      if n == 0 then None
      else
        var v := Value(t[..n]);
        if v >= U64 then None
        else Some(if signed && s[0] == '-' && v > 0 then U64 - v else v)
  }

  lemma {:induction false} ParseOfDecimal(n: nat)
    requires n < U64
    ensures ParseUnsigned(Decimal(n)) == Some(n)
  {
    var s := Decimal(n);
    assert IsDigit(s[0]);
    assert s[..DigitRun(s)] == s;
    ValueOfDecimal(n);
  }

  function FixedAbs(m: nat): string {
    Decimal(m / 1000000) + ['.'] + Padded(m % 1000000, 6)
  }

  /** std::to_string of a coordinate: sign, integer part, point, six decimals. */
  function Fixed(n: int): string {
    if n < 0 then ['-'] + FixedAbs(-n) else FixedAbs(n)
  }

  function ParseFixedAbs(t: string): Option<nat> {
    var n := DigitRun(t);
    if n == 0 || n + 7 != |t| || t[n] != '.' || DigitRun(t[n + 1..]) != 6 then None
    else Some(Value(t[..n]) * 1000000 + Value(t[n + 1..]))
  }

  /** std::stod on texts of that shape; None on all others. */
  function ParseFixed(s: string): Option<int> {
    if s != "" && s[0] == '-' then
      match ParseFixedAbs(s[1..]) case Some(m) => Some(0 - m) case None => None
    else ParseFixedAbs(s)
  }

  lemma {:induction false} DigitRunBefore(a: string, c: char, b: string)
    requires !IsDigit(c) && forall i :: 0 <= i < |a| ==> IsDigit(a[i])
    ensures DigitRun(a + [c] + b) == |a|
  {
    var t := a + [c] + b;
    assert t[|a|] == c && forall i :: 0 <= i < |a| ==> t[i] == a[i];
  }

  lemma {:induction false} ParseOfFixedAbs(m: nat)
    ensures ParseFixedAbs(FixedAbs(m)) == Some(m)
  {
    var whole, part := Decimal(m / 1000000), Padded(m % 1000000, 6);
    var t := FixedAbs(m);
    DigitRunBefore(whole, '.', part);
    assert t[..|whole|] == whole && t[|whole| + 1..] == part;
    assert DigitRun(part) == 6;
    ValueOfDecimal(m / 1000000);
    assert Pow10(6) == 1000000 by { assert Pow10(3) == 1000; }
    ValueOfPadded(m % 1000000, 6);
  }

  lemma {:induction false} ParseOfFixed(n: int)
    ensures ParseFixed(Fixed(n)) == Some(n)
  {
    var m := if n < 0 then -n else n;
    ParseOfFixedAbs(m);
    if n < 0 {
      assert Fixed(n)[1..] == FixedAbs(m);
    } else {
      assert IsDigit(Decimal(m / 1000000)[0]) && Fixed(n)[0] == Decimal(m / 1000000)[0];
    }
  }

  // ---------------------------------------------------------------------------
  // Node values
  // ---------------------------------------------------------------------------

  /** buildNodeValue. */
  function Build(n: NodeInfo): string {
    n.address + ['|'] + (Decimal(n.rooms) + ['|'] + (Decimal(n.maxRooms) + ['|'] + (Fixed(n.lat) + ['|']
    + (Fixed(n.lng) + ['|'] + (n.isp + ['|'] + n.country)))))
  }

  function GetOr<T>(o: Option<T>, default: T): T {
    match o case Some(v) => v case None => default
  }

  /** parseNodeValue. */
  function Parse(s: string): NodeInfo {
    FromTokens(Tokens(s))
  }

  function FromTokens(ps: seq<string>): NodeInfo {
    NodeInfo(
      if |ps| > 0 then ps[0] else "",
      if |ps| > 1 then GetOr(ParseUnsigned(ps[1]), 0) else 0,
      if |ps| > 2 then GetOr(ParseUnsigned(ps[2]), 0) else 0,
      if |ps| > 3 then GetOr(ParseFixed(ps[3]), 0) else 0,
      if |ps| > 4 then GetOr(ParseFixed(ps[4]), 0) else 0,
      if |ps| > 5 then ps[5] else "",
      if |ps| > 6 then ps[6] else "")
  }

  method ParseNodeValue(val: string) returns (info: NodeInfo)
    ensures info == Parse(val)
  {
    info := NO_NODE;
    var parts := SplitTokens(val);
    if parts == [] { return; }
    info := info.(address := parts[0]);
    if |parts| > 1 { info := info.(rooms := GetOr(ParseUnsigned(parts[1]), info.rooms)); }
    if |parts| > 2 { info := info.(maxRooms := GetOr(ParseUnsigned(parts[2]), info.maxRooms)); }
    if |parts| > 3 { info := info.(lat := GetOr(ParseFixed(parts[3]), info.lat)); }
    if |parts| > 4 { info := info.(lng := GetOr(ParseFixed(parts[4]), info.lng)); }
    if |parts| > 5 { info := info.(isp := parts[5]); }
    if |parts| > 6 { info := info.(country := parts[6]); }
  }

  function Fields(n: NodeInfo): seq<string> {
    [n.address, Decimal(n.rooms), Decimal(n.maxRooms), Fixed(n.lat), Fixed(n.lng), n.isp, n.country]
  }

  lemma {:induction false} BuildIsJoin(n: NodeInfo)
    ensures Build(n) == Join(Fields(n))
  {
    var fs := Fields(n);
    assert Join(fs[6..]) == n.country;
    assert fs[5..][1..] == fs[6..] && fs[4..][1..] == fs[5..] && fs[3..][1..] == fs[4..];
    assert fs[2..][1..] == fs[3..] && fs[1..][1..] == fs[2..];
    assert Join(fs[5..]) == n.isp + ['|'] + Join(fs[6..]);
    assert Join(fs[4..]) == Fixed(n.lng) + ['|'] + Join(fs[5..]);
    assert Join(fs[3..]) == Fixed(n.lat) + ['|'] + Join(fs[4..]);
    assert Join(fs[2..]) == Decimal(n.maxRooms) + ['|'] + Join(fs[3..]);
    assert Join(fs[1..]) == Decimal(n.rooms) + ['|'] + Join(fs[2..]);
  }

  lemma {:induction false} NumbersAreBarFree(n: nat, c: int)
    ensures BarFree(Decimal(n)) && BarFree(Fixed(c))
  {
    var m := if c < 0 then -c else c;
    assert '|' !in Decimal(n) && '|' !in Decimal(m / 1000000) && '|' !in Padded(m % 1000000, 6);
  }

  lemma {:induction false} TokensOfBuilt(n: NodeInfo)
    requires BarFree(n.address) && BarFree(n.isp) && BarFree(n.country)
    ensures Tokens(Build(n)) == DropEmptyLast(Fields(n))
  {
    BuildIsJoin(n);
    NumbersAreBarFree(n.rooms, n.lat);
    NumbersAreBarFree(n.maxRooms, n.lng);
    TokensOfJoin(Fields(n));
  }

  /** Parsing a built value returns the same fields exactly when no text field contains a bar. */
  lemma {:induction false} NodeValueRoundTrip(n: NodeInfo)
    requires n.rooms < U64 && n.maxRooms < U64
    ensures Parse(Build(n)) == n <==> BarFree(n.address) && BarFree(n.isp) && BarFree(n.country)
  {
    if BarFree(n.address) && BarFree(n.isp) && BarFree(n.country) {
      ParseOfBuilt(n);
    } else {
      TextsAreBarFree(Build(n));
    }
  }

  lemma {:induction false} ParseOfBuilt(n: NodeInfo)
    requires n.rooms < U64 && n.maxRooms < U64 && BarFree(n.address) && BarFree(n.isp) && BarFree(n.country)
    ensures Parse(Build(n)) == n
  {
    TokensOfBuilt(n);
    ParseOfDecimal(n.rooms);
    ParseOfDecimal(n.maxRooms);
    ParseOfFixed(n.lat);
    ParseOfFixed(n.lng);
    FieldsRead(n, Decimal(n.rooms), Decimal(n.maxRooms), Fixed(n.lat), Fixed(n.lng));
  }

  lemma {:induction false} FieldsRead(n: NodeInfo, rooms: string, maxRooms: string, lat: string, lng: string)
    requires ParseUnsigned(rooms) == Some(n.rooms) && ParseUnsigned(maxRooms) == Some(n.maxRooms)
    requires ParseFixed(lat) == Some(n.lat) && ParseFixed(lng) == Some(n.lng)
    ensures FromTokens(DropEmptyLast([n.address, rooms, maxRooms, lat, lng, n.isp, n.country])) == n
  {
  }

  lemma {:induction false} TextsAreBarFree(s: string)
    ensures BarFree(Parse(s).address) && BarFree(Parse(s).isp) && BarFree(Parse(s).country)
  {
    TokensAreBarFree(s);
  }

  // ---------------------------------------------------------------------------
  // Messages
  // ---------------------------------------------------------------------------

  function Message(key: string, value: string): string {
    key + ['='] + value
  }

  /** Key and value of a message, split at the first `=`; None when there is none. */
  function SplitMessage(data: string): Option<(string, string)> {
    var i := Find(data, '=');
    if i == |data| then None else Some((data[..i], data[i + 1..]))
  }

  /** A published message is read back as what was sent exactly when the key contains no `=`. */
  lemma {:induction false} MessageRoundTrip(key: string, value: string)
    ensures SplitMessage(Message(key, value)) == Some((key, value)) <==> '=' !in key
  {
    var data := Message(key, value);
    FindIsFirst(data, '=');
    if '=' !in key {
      FindInConcat(key, '=', value);
      assert data[..|key|] == key && data[|key| + 1..] == value;
    }
  }

  /** IsValidNodeId, enforced at start-up. */
  predicate ValidNodeId(id: string) {
    0 < |id| <= 128 && forall i :: 0 <= i < |id| ==>
      ('A' <= id[i] <= 'Z') || ('a' <= id[i] <= 'z') || ('0' <= id[i] <= '9')
      || id[i] == '_' || id[i] == '-' || id[i] == '.' || id[i] == ':'
  }

  /** A published node update arrives with its key and all its fields, and is never a removal. */
  lemma {:induction false} NodeUpdateRoundTrip(id: string, n: NodeInfo)
    requires ValidNodeId(id) && n.rooms < U64 && n.maxRooms < U64
    requires BarFree(n.address) && BarFree(n.isp) && BarFree(n.country)
    ensures SplitMessage(Message(id, Build(n))) == Some((id, Build(n)))
    ensures Build(n) != "" && Parse(Build(n)) == n
  {
    MessageRoundTrip(id, Build(n));
    NodeValueRoundTrip(n);
  }
}
