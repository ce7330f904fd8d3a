/** The hand-written JSON printer and parser of auth/jwt.go.  A Go string is a sequence
    of bytes; it is a `string` here, each character standing for one byte. */
module ClaimsJson {
  import Base64
  import opened MapOrder
  import opened Splitting
  import opened Wrappers

  /** The claim values modelled: strings, int64 numbers and string lists. */
  datatype Value = VString(text: string) | VInt(n: int) | VList(items: seq<string>)

  /** What the parser produces. */
  datatype Json =
      JString(text: string) | JInt(n: int) | JFloat(f: real) | JBool(b: bool) | JNull | JList(items: seq<Json>)

  /** The library's `%f` scan of a string, of which nothing is assumed but `RejectsBrackets`. */
  type FloatScan = string -> Option<real>

  ghost predicate RejectsBrackets(scan: FloatScan) {
    forall s: string {:trigger scan(s)} :: |s| > 0 && s[0] == '[' ==> scan(s) == None
  }

  const MIN_INT64: int := -0x8000_0000_0000_0000
  const MAX_INT64: int := 0x7FFF_FFFF_FFFF_FFFF

  // ----- Trimming

  function TrimLeft(s: string, cut: set<char>): (r: string)
    ensures |r| <= |s| && (|s| > 0 && s[0] in cut ==> |r| < |s|)
  {
    if s == [] || s[0] !in cut then s else TrimLeft(s[1..], cut)
  }

  function TrimRight(s: string, cut: set<char>): (r: string)
    ensures |r| <= |s|
  {
    if s == [] || s[|s| - 1] !in cut then s else TrimRight(s[..|s| - 1], cut)
  }

  function Trim(s: string, cut: set<char>): (r: string)
    ensures |r| <= |s| && (|s| > 0 && s[0] in cut ==> |r| < |s|)
  {
    TrimRight(TrimLeft(s, cut), cut)
  }

  const SPACE: set<char> := {' ', '\t', '\n', 11 as char, 12 as char, '\r'}

  // ----- Printing

  predicate IsDigit(c: char) { '0' <= c <= '9' }

  function NatText(n: nat): (s: string)
    ensures |s| > 0 && forall i :: 0 <= i < |s| ==> IsDigit(s[i])
  {
    var d := (n % 10 + 48) as char;
    if n < 10 then [d] else NatText(n / 10) + [d]
  }

  function IntText(n: int): string {
    if n < 0 then "-" + NatText(-n) else NatText(n)
  }

  function Quoted(s: string): string {
    "\"" + s + "\""
  }

  function QuotedAll(items: seq<string>): (r: seq<string>)
    ensures |r| == |items| && forall i :: 0 <= i < |r| ==> r[i] == Quoted(items[i])
  {
    if items == [] then [] else [Quoted(items[0])] + QuotedAll(items[1..])
  }

  function Text(v: Value): string {
    match v
    case VString(s) => Quoted(s)
    case VInt(n) => IntText(n)
    case VList(items) => "[" + Join(QuotedAll(items), ',') + "]"
  }

  function PairText(k: string, v: Value): string {
    Quoted(k) + ":" + Text(v)
  }

  /** The printed pairs, in the order `keys` in which the map yielded them. */
  function Body(m: map<string, Value>, keys: seq<string>): string
    requires forall k :: k in keys ==> k in m
  {
    if keys == [] then []
    else if |keys| == 1 then PairText(keys[0], m[keys[0]])
    else PairText(keys[0], m[keys[0]]) + "," + Body(m, keys[1..])
  }

  // ----- Parsing

  function DigitPrefix(s: string): (r: string)
    ensures |r| <= |s|
  {
    if s == [] || !IsDigit(s[0]) then [] else [s[0]] + DigitPrefix(s[1..])
  }

  function DigitsValue(s: string): int {
    if s == [] then 0 else DigitsValue(s[..|s| - 1]) * 10 + (s[|s| - 1] as int - 48)
  }

  /** `%d` on text without leading space: a sign, then as many digits as there are. */
  function ScanInt(s: string): Option<int> {
    var signed := |s| > 0 && (s[0] == '-' || s[0] == '+');
    var digits := DigitPrefix(if signed then s[1..] else s);
    var v := if signed && s[0] == '-' then -DigitsValue(digits) else DigitsValue(digits);
    if digits == [] || v < MIN_INT64 || v > MAX_INT64 then None else Some(v)
  }

  /** What the parser takes a trimmed text for, tried in this order. */
  datatype Form =
      StringForm | FloatForm(f: real) | IntForm(n: int) | TrueForm | FalseForm | NullForm | ListForm | BareForm

  function FormOf(scan: FloatScan, val: string): Form {
    if |val| > 0 && val[0] == '"' && val[|val| - 1] == '"' then StringForm
    else if '.' in val && scan(val).Some? then FloatForm(scan(val).value)
    else if ScanInt(val).Some? then IntForm(ScanInt(val).value)
    else if val == "true" then TrueForm
    else if val == "false" then FalseForm
    else if val == "null" then NullForm
    else if |val| > 0 && val[0] == '[' && val[|val| - 1] == ']' then ListForm
    else BareForm
  }

  function ParseValue(scan: FloatScan, text: string): Json
    decreases |text|, 0
  {
    var val := Trim(text, SPACE);
    match FormOf(scan, val)
    case StringForm => JString(Trim(val, {'"'}))
    case FloatForm(f) => JFloat(f)
    case IntForm(i) => JInt(i)
    case TrueForm => JBool(true)
    case FalseForm => JBool(false)
    case NullForm => JNull
    case ListForm => JList(ParseAll(scan, Split(Trim(val, {'[', ']'}), ','), |text|))
    case BareForm => JString(val)
  }

  function ParseAll(scan: FloatScan, parts: seq<string>, bound: nat): (r: seq<Json>)
    requires forall p :: p in parts ==> |p| < bound
    ensures |r| == |parts|
    decreases bound, 0, |parts|
  {
    if parts == [] then [] else [ParseValue(scan, parts[0])] + ParseAll(scan, parts[1..], bound)
  }

  lemma {:induction false} ParseAllAt(scan: FloatScan, parts: seq<string>, bound: nat, i: nat)
    requires (forall p :: p in parts ==> |p| < bound) && i < |parts|
    ensures ParseAll(scan, parts, bound)[i] == ParseValue(scan, parts[i])
  {
    if i > 0 {
      ParseAllAt(scan, parts[1..], bound, i - 1);
    }
  }

  lemma PartsShorter(val: string, bound: nat)
    requires 0 < |val| <= bound && val[0] == '['
    ensures forall p :: p in Split(Trim(val, {'[', ']'}), ',') ==> |p| < bound
  {
    assert |Trim(val, {'[', ']'})| < |val|;
  }

  lemma ListFormParses(scan: FloatScan, text: string, val: string, parts: seq<string>)
    requires val == Trim(text, SPACE) && FormOf(scan, val) == ListForm
    requires parts == Split(Trim(val, {'[', ']'}), ',') && forall p :: p in parts ==> |p| < |text|
    ensures ParseValue(scan, text) == JList(ParseAll(scan, parts, |text|))
  {
  }

  method ParseJSONValue(scan: FloatScan, text: string) returns (r: Json)
    ensures r == ParseValue(scan, text)
    decreases |text|, 1
  {
    var val := Trim(text, SPACE);
    if |val| > 0 && val[0] == '"' && val[|val| - 1] == '"' {
      return JString(Trim(val, {'"'}));
    }
    if '.' in val {
      if scan(val).Some? {
        return JFloat(scan(val).value);
      }
    }
    if ScanInt(val).Some? {
      return JInt(ScanInt(val).value);
    }
    if val == "true" {
      return JBool(true);
    }
    if val == "false" {
      return JBool(false);
    }
    if val == "null" {
      return JNull;
    }
    if |val| > 0 && val[0] == '[' && val[|val| - 1] == ']' {
      assert FormOf(scan, val) == ListForm;
      PartsShorter(val, |text|);
      ListFormParses(scan, text, val, Split(Trim(val, {'[', ']'}), ','));
      var items := ParseItems(scan, Split(Trim(val, {'[', ']'}), ','), |text|);
      return JList(items);
    }
    return JString(val);
  }

  /** The loop over the items of a list. */
  method ParseItems(scan: FloatScan, items: seq<string>, bound: nat) returns (r: seq<Json>)
    requires forall p :: p in items ==> |p| < bound
    ensures r == ParseAll(scan, items, bound)
    decreases bound, 0
  {
    r := [];
    for i := 0 to |items|
      invariant |r| == i && forall j :: 0 <= j < i ==> r[j] == ParseValue(scan, items[j])
    {
      var item := ParseJSONValue(scan, items[i]);
      r := r + [item];
    }
    forall i | 0 <= i < |items|
      ensures r[i] == ParseAll(scan, items, bound)[i]
    {
      ParseAllAt(scan, items, bound, i);
    }
  }

  /** The variables of the parsing loop. */
  datatype Scanner = Scanner(inString: bool, depth: int, key: string, value: string, result: map<string, Json>)

  const START := Scanner(false, 0, "", "", map[])

  /** One turn of the loop on `c`, where `prev` is the byte before it. */
  function Step(scan: FloatScan, st: Scanner, prev: char, c: char): Scanner {
    if c == '"' && prev != '\\' then st.(inString := !st.inString, value := st.value + [c])
    else if st.inString then st.(value := st.value + [c])
    else if c == '{' || c == '[' then st.(depth := st.depth + 1, value := st.value + [c])
    else if c == '}' || c == ']' then st.(depth := st.depth - 1, value := st.value + [c])
    else if c == ':' && st.depth == 0 then st.(key := Trim(st.value, {'"', ' '}), value := "")
    else if c == ',' && st.depth == 0 then
      st.(result := st.result[st.key := ParseValue(scan, Trim(st.value, SPACE))], value := "")
    else st.(value := st.value + [c])
  }

  function Run(scan: FloatScan, st: Scanner, prev: char, s: string): Scanner
    decreases |s|
  {
    if s == [] then st else Run(scan, Step(scan, st, prev, s[0]), s[0], s[1..])
  }

  function Finish(scan: FloatScan, st: Scanner): map<string, Json> {
    if st.key != "" then st.result[st.key := ParseValue(scan, Trim(st.value, SPACE))] else st.result
  }

  function ParsedObject(scan: FloatScan, s: string): map<string, Json> {
    Finish(scan, Run(scan, START, ' ', s))
  }

  method ParseJSONObject(scan: FloatScan, str: string) returns (result: map<string, Json>)
    ensures result == ParsedObject(scan, str)
  {
    result := map[];
    var inString, depth, currentKey, currentValue := false, 0, "", "";
    for i := 0 to |str|
      invariant Run(scan, START, ' ', str)
             == Run(scan, Scanner(inString, depth, currentKey, currentValue, result),
                    if i == 0 then ' ' else str[i - 1], str[i..])
    {
      var c := str[i];
      if c == '"' && (i == 0 || str[i - 1] != '\\') {
        inString := !inString;
        currentValue := currentValue + [c];
        continue;
      }
      if !inString {
        if c == '{' || c == '[' {
          depth := depth + 1;
          currentValue := currentValue + [c];
        } else if c == '}' || c == ']' {
          depth := depth - 1;
          currentValue := currentValue + [c];
        } else if c == ':' && depth == 0 {
          currentKey := Trim(currentValue, {'"', ' '});
          currentValue := "";
        } else if c == ',' && depth == 0 {
          var value := ParseJSONValue(scan, Trim(currentValue, SPACE));
          result := result[currentKey := value];
          currentValue := "";
        } else {
          currentValue := currentValue + [c];
        }
      } else {
        currentValue := currentValue + [c];
      }
    }
    if currentKey != "" {
      var value := ParseJSONValue(scan, Trim(currentValue, SPACE));
      result := result[currentKey := value];
    }
  }

  // ----- Facts about trimming

  /** No character to cut at either end. */
  predicate Core(s: string, cut: set<char>) {
    s == "" || (s[0] !in cut && s[|s| - 1] !in cut)
  }

  lemma {:induction false} TrimLeftWrap(pre: string, s: string, cut: set<char>)
    requires (forall c :: c in pre ==> c in cut) && (s == "" || s[0] !in cut)
    ensures TrimLeft(pre + s, cut) == s
  {
    if pre != "" {
      TrimLeftWrap(pre[1..], s, cut);
      assert (pre + s)[1..] == pre[1..] + s;
    } else {
      assert pre + s == s;
    }
  }

  lemma {:induction false} TrimRightWrap(s: string, post: string, cut: set<char>)
    requires (forall c :: c in post ==> c in cut) && (s == "" || s[|s| - 1] !in cut)
    ensures TrimRight(s + post, cut) == s
  {
    if post != "" {
      TrimRightWrap(s, post[..|post| - 1], cut);
      assert (s + post)[..|s + post| - 1] == s + post[..|post| - 1];
    } else {
      assert s + post == s;
    }
  }

  /** Trimming takes off what was wrapped around a core without edge characters to cut. */
  lemma TrimWrap(pre: string, s: string, post: string, cut: set<char>)
    requires (forall c :: c in pre ==> c in cut) && (forall c :: c in post ==> c in cut)
    requires Core(s, cut)
    ensures Trim(pre + s + post, cut) == s
  {
    if s == "" {
      TrimLeftWrap(pre + post, "", cut);
      assert pre + s + post == pre + post + "";
    } else {
      TrimLeftWrap(pre, s + post, cut);
      TrimRightWrap(s, post, cut);
      assert pre + s + post == pre + (s + post);
    }
  }

  lemma {:induction false} TrimRightEdge(s: string, cut: set<char>)
    ensures var r := TrimRight(s, cut); r <= s && (r == "" || r[|r| - 1] !in cut)
  {
    if s != "" && s[|s| - 1] in cut {
      TrimRightEdge(s[..|s| - 1], cut);
    }
  }

  lemma {:induction false} TrimLeftEdge(s: string, cut: set<char>)
    ensures var r := TrimLeft(s, cut); r == "" || r[0] !in cut
  {
    if s != "" && s[0] in cut {
      TrimLeftEdge(s[1..], cut);
    }
  }

  lemma TrimIsCore(s: string, cut: set<char>)
    ensures Core(Trim(s, cut), cut)
  {
    TrimLeftEdge(s, cut);
    TrimRightEdge(TrimLeft(s, cut), cut);
  }

  /** What was wrapped comes back exactly if it has no edge characters to cut. */
  lemma TrimWrapIff(pre: string, s: string, post: string, cut: set<char>)
    requires (forall c :: c in pre ==> c in cut) && (forall c :: c in post ==> c in cut)
    ensures Trim(pre + s + post, cut) == s <==> Core(s, cut)
  {
    if Core(s, cut) {
      TrimWrap(pre, s, post, cut);
    } else {
      TrimIsCore(pre + s + post, cut);
    }
  }

  // ----- Values

  /** No quote inside and no backslash just before the closing quote. */
  predicate Clean(s: string) {
    '"' !in s && (s == "" || s[|s| - 1] != '\\')
  }

  predicate CleanValue(v: Value) {
    match v
    case VString(s) => Clean(s)
    case VInt(_) => true
    case VList(items) => forall s :: s in items ==> Clean(s)
  }

  /** Numbers are 64 bits wide. */
  predicate InRange(v: Value) {
    v.VInt? ==> MIN_INT64 <= v.n <= MAX_INT64
  }

  const QUOTE: set<char> := {'"'}

  function Strings(items: seq<string>): (r: seq<Json>)
    ensures |r| == |items| && forall i :: 0 <= i < |r| ==> r[i] == JString(items[i])
  {
    seq(|items|, i requires 0 <= i < |items| => JString(items[i]))
  }

  /** The value as the parser represents it. */
  function AsJson(v: Value): Json {
    match v
    case VString(s) => JString(s)
    case VInt(n) => JInt(n)
    case VList(items) => JList(Strings(items))
  }

  lemma {:induction false} DigitPrefixAll(s: string)
    requires forall i :: 0 <= i < |s| ==> IsDigit(s[i])
    ensures DigitPrefix(s) == s
  {
    if s != "" {
      DigitPrefixAll(s[1..]);
    }
  }

  lemma {:induction false} NatTextValue(n: nat)
    ensures DigitsValue(NatText(n)) == n
  {
    var d := (n % 10 + 48) as char;
    if n >= 10 {
      NatTextValue(n / 10);
      assert (NatText(n / 10) + [d])[..|NatText(n / 10) + [d]| - 1] == NatText(n / 10);
    } else {
      assert [d][..0] == [];
    }
  }

  /** Characters at the edges of printed values. */
  predicate Solid(c: char) {
    c == '"' || c == '[' || c == ']' || c == '-' || IsDigit(c)
  }

  lemma SolidEdges(s: string)
    requires s != "" && Solid(s[0]) && Solid(s[|s| - 1])
    ensures Trim(s, SPACE) == s
  {
    assert forall c :: Solid(c) ==> c !in SPACE;
    TrimWrap("", s, "", SPACE);
    assert "" + s + "" == s;
  }

  lemma ScanNegative(m: nat)
    requires 0 < m <= -MIN_INT64
    ensures ScanInt("-" + NatText(m)) == Some(0 - m)
  {
    NatTextValue(m);
    DigitPrefixAll(NatText(m));
    assert ("-" + NatText(m))[1..] == NatText(m);
  }

  lemma ScanNat(m: nat)
    requires m <= MAX_INT64
    ensures ScanInt(NatText(m)) == Some(m)
  {
    NatTextValue(m);
    DigitPrefixAll(NatText(m));
    assert IsDigit(NatText(m)[0]);
  }

  lemma ScanIntText(n: int)
    requires MIN_INT64 <= n <= MAX_INT64
    ensures ScanInt(IntText(n)) == Some(n)
  {
    if n < 0 {
      ScanNegative(-n);
    } else {
      ScanNat(n);
    }
  }

  lemma IntTextEdges(n: int)
    ensures var s := IntText(n); s != "" && Solid(s[0]) && IsDigit(s[|s| - 1])
    ensures forall i :: 0 <= i < |IntText(n)| ==> IsDigit(IntText(n)[i]) || IntText(n)[i] == '-'
  {
  }

  lemma IntRoundTrip(scan: FloatScan, n: int)
    requires MIN_INT64 <= n <= MAX_INT64
    ensures ParseValue(scan, IntText(n)) == JInt(n)
  {
    IntTextEdges(n);
    SolidEdges(IntText(n));
    ScanIntText(n);
    assert '.' !in IntText(n);
  }

  /** A string comes back iff it has no quote at either end. */
  lemma StringRoundTrip(scan: FloatScan, s: string)
    ensures ParseValue(scan, Quoted(s)) == JString(s) <==> Core(s, QUOTE)
  {
    SolidEdges(Quoted(s));
    TrimWrapIff("\"", s, "\"", QUOTE);
  }

  lemma JoinQuotedEdges(items: seq<string>)
    requires items != []
    ensures var j := Join(QuotedAll(items), ','); |j| >= 2 && j[0] == '"' && j[|j| - 1] == '"'
  {
    if |items| > 1 {
      JoinQuotedEdges(items[1..]);
    }
  }

  /** A bracketed text reaches the list branch of the parser. */
  lemma ListBranch(scan: FloatScan, s: string)
    requires RejectsBrackets(scan) && |s| >= 2 && s[0] == '[' && s[|s| - 1] == ']'
    ensures ParseValue(scan, s) == JList(ParseAll(scan, Split(Trim(s, {'[', ']'}), ','), |s|))
  {
    SolidEdges(s);
    BracketIsList(scan, s);
    PartsShorter(s, |s|);
    ListFormParses(scan, s, s, Split(Trim(s, {'[', ']'}), ','));
  }

  lemma BracketIsList(scan: FloatScan, s: string)
    requires RejectsBrackets(scan) && s != "" && s[0] == '[' && s[|s| - 1] == ']'
    ensures FormOf(scan, s) == ListForm
  {
  }

  lemma CommaFreeQuoted(items: seq<string>)
    ensures (forall p :: p in QuotedAll(items) ==> ',' !in p) <==> (forall s :: s in items ==> ',' !in s)
  {
    var parts := QuotedAll(items);
    forall i | 0 <= i < |items|
      ensures ',' in parts[i] <==> ',' in items[i]
    {
      assert parts[i] == Quoted(items[i]);
    }
    if s :| s in items && ',' in s {
      var i :| 0 <= i < |items| && items[i] == s;
      assert parts[i] in parts;
    }
  }

  lemma ParsedItem(scan: FloatScan, items: seq<string>, bound: nat, i: nat)
    requires (forall p :: p in QuotedAll(items) ==> |p| < bound) && i < |items|
    ensures ParseAll(scan, QuotedAll(items), bound)[i] == JString(items[i]) <==> Core(items[i], QUOTE)
  {
    ParseAllAt(scan, QuotedAll(items), bound, i);
    StringRoundTrip(scan, items[i]);
  }

  lemma AreStrings(parsed: seq<Json>, items: seq<string>)
    requires |parsed| == |items|
    requires forall i :: 0 <= i < |items| ==> (parsed[i] == JString(items[i]) <==> Core(items[i], QUOTE))
    ensures parsed == Strings(items) <==> forall s :: s in items ==> Core(s, QUOTE)
  {
    if parsed == Strings(items) {
      assert forall i :: 0 <= i < |items| ==> parsed[i] == Strings(items)[i];
    } else {
      var i :| 0 <= i < |items| && parsed[i] != Strings(items)[i];
      assert items[i] in items;
    }
  }

  lemma ParsedItems(scan: FloatScan, items: seq<string>, bound: nat)
    requires forall p :: p in QuotedAll(items) ==> |p| < bound
    ensures ParseAll(scan, QuotedAll(items), bound) == Strings(items) <==> forall s :: s in items ==> Core(s, QUOTE)
  {
    forall i | 0 <= i < |items|
      ensures ParseAll(scan, QuotedAll(items), bound)[i] == JString(items[i]) <==> Core(items[i], QUOTE)
    {
      ParsedItem(scan, items, bound, i);
    }
    AreStrings(ParseAll(scan, QuotedAll(items), bound), items);
  }

  lemma ListInner(items: seq<string>)
    ensures Trim(Text(VList(items)), {'[', ']'}) == Join(QuotedAll(items), ',')
  {
    if items != [] {
      JoinQuotedEdges(items);
    }
    TrimWrap("[", Join(QuotedAll(items), ','), "]", {'[', ']'});
  }

  /** A list comes back iff it is not empty and no item holds a comma or has a quote at either end. */
  lemma ListRoundTrip(scan: FloatScan, items: seq<string>)
    requires RejectsBrackets(scan)
    ensures ParseValue(scan, Text(VList(items))) == JList(Strings(items))
            <==> items != [] && forall s :: s in items ==> ',' !in s && Core(s, QUOTE)
  {
    var parts, s := QuotedAll(items), Text(VList(items));
    ListInner(items);
    ListBranch(scan, s);
    if items != [] {
      SplitJoin(parts, ',');
      CommaFreeQuoted(items);
      if forall s :: s in items ==> ',' !in s {
        ParsedItems(scan, items, |s|);
      }
    }
  }

  /** Exactly when a value survives printing and parsing. */
  predicate Faithful(v: Value) {
    match v
    case VString(s) => Core(s, QUOTE)
    case VInt(_) => true
    case VList(items) => items != [] && forall s :: s in items ==> ',' !in s && Core(s, QUOTE)
  }

  lemma ValueRoundTrip(scan: FloatScan, v: Value)
    requires RejectsBrackets(scan) && InRange(v)
    ensures ParseValue(scan, Text(v)) == AsJson(v) <==> Faithful(v)
  {
    match v
    case VString(s) => StringRoundTrip(scan, s);
    case VInt(n) => IntRoundTrip(scan, n);
    case VList(items) => ListRoundTrip(scan, items);
  }

  // ----- The scanner on printed text

  function Last(prev: char, s: string): char {
    if s == "" then prev else s[|s| - 1]
  }

  lemma {:induction false} RunConcat(scan: FloatScan, st: Scanner, prev: char, a: string, b: string)
    ensures Run(scan, st, prev, a + b) == Run(scan, Run(scan, st, prev, a), Last(prev, a), b)
    decreases |a|
  {
    if a == "" {
      assert a + b == b;
    } else {
      RunConcat(scan, Step(scan, st, prev, a[0]), a[0], a[1..], b);
      assert (a + b)[1..] == a[1..] + b;
    }
  }

  /** Where the scanner stands: inside a string or not, and how deep. */
  datatype Place = Place(inString: bool, depth: int)

  const TOP := Place(false, 0)

  function PlaceOf(st: Scanner): Place { Place(st.inString, st.depth) }

  predicate Separates(at: Place, c: char) {
    at == TOP && (c == ':' || c == ',')
  }

  function Moved(at: Place, prev: char, c: char): Place {
    if c == '"' && prev != '\\' then at.(inString := !at.inString)
    else if at.inString then at
    else if c == '{' || c == '[' then at.(depth := at.depth + 1)
    else if c == '}' || c == ']' then at.(depth := at.depth - 1)
    else at
  }

  /** Where the scanner stands after `s`, unless it meets a separator at top level. */
  function Scanned(at: Place, prev: char, s: string): Option<Place>
    decreases |s|
  {
    if s == "" then Some(at)
    else if Separates(at, s[0]) then None
    else Scanned(Moved(at, prev, s[0]), s[0], s[1..])
  }

  /** Scanned from the top level, `s` has no separator there. */
  predicate Whole(s: string) { Scanned(TOP, ' ', s).Some? }

  /** Moreover, `s` ends where it began: at the top level, outside strings. */
  predicate Transparent(s: string) { Scanned(TOP, ' ', s) == Some(TOP) }

  lemma {:induction false} ScannedConcat(at: Place, prev: char, a: string, b: string)
    requires Scanned(at, prev, a).Some?
    ensures Scanned(at, prev, a + b) == Scanned(Scanned(at, prev, a).value, Last(prev, a), b)
    decreases |a|
  {
    if a == "" {
      assert a + b == b;
    } else {
      ScannedConcat(Moved(at, prev, a[0]), a[0], a[1..], b);
      assert (a + b)[1..] == a[1..] + b;
    }
  }

  /** Only a backslash makes a difference before the text. */
  lemma ScannedFrom(at: Place, prev: char, s: string)
    requires prev != '\\'
    ensures Scanned(at, prev, s) == Scanned(at, ' ', s)
  {
  }

  lemma {:induction false} RunScanned(scan: FloatScan, st: Scanner, prev: char, s: string)
    requires Scanned(PlaceOf(st), prev, s).Some?
    ensures var at := Scanned(PlaceOf(st), prev, s).value;
            Run(scan, st, prev, s) == st.(inString := at.inString, depth := at.depth, value := st.value + s)
    decreases |s|
  {
    if s == "" {
      assert st.value + s == st.value;
    } else {
      RunScanned(scan, Step(scan, st, prev, s[0]), s[0], s[1..]);
      assert st.value + [s[0]] + s[1..] == st.value + s;
    }
  }

  lemma {:induction false} ValueGrows(scan: FloatScan, st: Scanner, prev: char, s: string)
    ensures |Run(scan, st, prev, s).value| <= |st.value| + |s|
    ensures Scanned(PlaceOf(st), prev, s).None? ==> |Run(scan, st, prev, s).value| < |st.value| + |s|
    decreases |s|
  {
    if s != "" {
      ValueGrows(scan, Step(scan, st, prev, s[0]), s[0], s[1..]);
    }
  }

  /** From the top level, a text becomes part of the value and changes nothing else exactly if it is transparent. */
  lemma RunText(scan: FloatScan, st: Scanner, prev: char, s: string)
    requires PlaceOf(st) == TOP && prev != '\\'
    ensures Run(scan, st, prev, s) == st.(value := st.value + s) <==> Transparent(s)
  {
    ScannedFrom(TOP, prev, s);
    ValueGrows(scan, st, prev, s);
    if Whole(s) {
      RunScanned(scan, st, prev, s);
    }
  }

  // ----- Texts without quotes

  lemma {:induction false} ScannedInside(at: Place, prev: char, w: string)
    requires at.inString && '"' !in w
    ensures Scanned(at, prev, w) == Some(at)
    decreases |w|
  {
    if w != "" {
      ScannedInside(at, w[0], w[1..]);
    }
  }

  lemma ScannedQuoted(at: Place, prev: char, w: string)
    requires !at.inString && prev != '\\' && Clean(w)
    ensures Scanned(at, prev, Quoted(w)) == Some(at)
  {
    var inside := at.(inString := true);
    assert Quoted(w) == "\"" + (w + "\"");
    assert Scanned(at, prev, "\"") == Some(inside);
    ScannedConcat(at, prev, "\"", w + "\"");
    ScannedInside(inside, '"', w);
    ScannedConcat(inside, '"', w, "\"");
  }

  lemma {:induction false} ScannedDigits(prev: char, s: string)
    requires forall i :: 0 <= i < |s| ==> IsDigit(s[i]) || s[i] == '-'
    ensures Scanned(TOP, prev, s) == Some(TOP)
    decreases |s|
  {
    if s != "" {
      ScannedDigits(s[0], s[1..]);
    }
  }

  /** Inside brackets, the commas between quoted items separate nothing. */
  lemma {:induction false} ScannedItems(at: Place, prev: char, items: seq<string>)
    requires !at.inString && at.depth > 0 && prev != '\\' && forall s :: s in items ==> Clean(s)
    ensures Scanned(at, prev, Join(QuotedAll(items), ',')) == Some(at)
    decreases |items|
  {
    if items != [] {
      ScannedQuoted(at, prev, items[0]);
      if |items| > 1 {
        var q, rest := Quoted(items[0]), Join(QuotedAll(items[1..]), ',');
        ScannedConcat(at, prev, q, "," + rest);
        ScannedConcat(at, '"', ",", rest);
        ScannedItems(at, ',', items[1..]);
        assert Join(QuotedAll(items), ',') == q + ("," + rest);
      }
    }
  }

  /** Clean values are transparent. */
  lemma CleanTransparent(v: Value)
    requires CleanValue(v)
    ensures Transparent(Text(v))
  {
    match v
    case VString(s) => ScannedQuoted(TOP, ' ', s);
    case VInt(n) =>
      IntTextEdges(n);
      ScannedDigits(' ', IntText(n));
    case VList(items) =>
      var inner, inside := Join(QuotedAll(items), ','), Place(false, 1);
      assert "[" + (inner + "]") == Text(v);
      assert Scanned(TOP, ' ', "[") == Some(inside);
      ScannedConcat(TOP, ' ', "[", inner + "]");
      ScannedItems(inside, '[', items);
      ScannedConcat(inside, '[', inner, "]");
  }

  // ----- Pairs

  const BLANK: set<char> := {'"', ' '}

  /** A printed key as the parser reads it. */
  function ReadKey(k: string): string {
    Trim(Quoted(k), BLANK)
  }

  /** A key is read back exactly if it has no blank or quote at either end. */
  lemma ReadKeyIff(k: string)
    ensures Core(ReadKey(k), BLANK) && (ReadKey(k) == k <==> Core(k, BLANK))
  {
    TrimIsCore(Quoted(k), BLANK);
    TrimWrapIff("\"", k, "\"", BLANK);
  }

  lemma TrimText(v: Value)
    ensures Text(v) != "" && Solid(Text(v)[0]) && Solid(Text(v)[|Text(v)| - 1])
    ensures Trim(Text(v), SPACE) == Text(v)
  {
    if v.VInt? {
      IntTextEdges(v.n);
    }
    SolidEdges(Text(v));
  }

  lemma RunColon(scan: FloatScan, st: Scanner, prev: char, k: string)
    requires PlaceOf(st) == TOP && st.value == Quoted(k)
    ensures Run(scan, st, prev, ":") == st.(key := ReadKey(k), value := "")
  {
  }

  lemma RunKey(scan: FloatScan, st: Scanner, prev: char, k: string, rest: string)
    requires PlaceOf(st) == TOP && st.value == "" && prev != '\\' && Transparent(Quoted(k))
    ensures Run(scan, st, prev, Quoted(k) + ":" + rest) == Run(scan, st.(key := ReadKey(k), value := ""), ':', rest)
  {
    var q := Quoted(k);
    var st1 := st.(value := q);
    RunText(scan, st, prev, q);
    assert "" + q == q && q + ":" + rest == q + (":" + rest);
    RunConcat(scan, st, prev, q, ":" + rest);
    RunConcat(scan, st1, '"', ":", rest);
    RunColon(scan, st1, '"', k);
  }

  lemma RunComma(scan: FloatScan, st: Scanner, prev: char, v: Value)
    requires PlaceOf(st) == TOP && st.value == Text(v)
    ensures Run(scan, st, prev, ",") == st.(result := st.result[st.key := ParseValue(scan, Text(v))], value := "")
  {
    TrimText(v);
  }

  lemma RunValueComma(scan: FloatScan, st: Scanner, v: Value, rest: string)
    requires PlaceOf(st) == TOP && st.value == "" && Transparent(Text(v))
    ensures Run(scan, st, ':', Text(v) + "," + rest)
         == Run(scan, st.(result := st.result[st.key := ParseValue(scan, Text(v))]), ',', rest)
  {
    var t := Text(v);
    var st1 := st.(value := t);
    RunText(scan, st, ':', t);
    assert "" + t == t && t + "," + rest == t + ("," + rest);
    RunConcat(scan, st, ':', t, "," + rest);
    RunConcat(scan, st1, Last(':', t), ",", rest);
    RunComma(scan, st1, Last(':', t), v);
  }

  /** The last value only needs to be whole. */
  lemma RunLastValue(scan: FloatScan, st: Scanner, v: Value)
    requires PlaceOf(st) == TOP && st.value == "" && Whole(Text(v))
    ensures Finish(scan, Run(scan, st, ':', Text(v)))
         == if st.key == "" then st.result else st.result[st.key := ParseValue(scan, Text(v))]
  {
    ScannedFrom(TOP, ':', Text(v));
    RunScanned(scan, st, ':', Text(v));
    assert "" + Text(v) == Text(v);
    TrimText(v);
  }

  lemma BodyCons(m: map<string, Value>, keys: seq<string>)
    requires keys != [] && forall k :: k in keys ==> k in m
    ensures var k, t := keys[0], Text(m[keys[0]]);
            Body(m, keys) == Quoted(k) + ":" + if |keys| == 1 then t else t + "," + Body(m, keys[1..])
  {
  }

  /** Keys and values pass through the scanner; of the last value this is not asked in full. */
  predicate Passes(m: map<string, Value>, keys: seq<string>)
    requires forall k :: k in keys ==> k in m
  {
    keys != [] ==>
      && Transparent(Quoted(keys[0]))
      && if |keys| == 1 then Whole(Text(m[keys[0]])) else Transparent(Text(m[keys[0]])) && Passes(m, keys[1..])
  }

  /** An empty key that comes last is not recorded. */
  function Recorded(keys: seq<string>): seq<string> {
    if keys != [] && ReadKey(keys[|keys| - 1]) == "" then keys[..|keys| - 1] else keys
  }

  function Overlay(scan: FloatScan, result: map<string, Json>, m: map<string, Value>,
                   keys: seq<string>): map<string, Json>
    requires forall k :: k in keys ==> k in m
    decreases |keys|
  {
    if keys == [] then result
    else Overlay(scan, result[ReadKey(keys[0]) := ParseValue(scan, Text(m[keys[0]]))], m, keys[1..])
  }

  lemma OverlayLast(scan: FloatScan, result: map<string, Json>, m: map<string, Value>, keys: seq<string>)
    requires |keys| == 1 && keys[0] in m
    ensures var k := ReadKey(keys[0]);
            Overlay(scan, result, m, Recorded(keys)) ==
            if k == "" then result else result[k := ParseValue(scan, Text(m[keys[0]]))]
  {
  }

  lemma OverlayRecorded(scan: FloatScan, result: map<string, Json>, m: map<string, Value>, keys: seq<string>)
    requires |keys| > 1 && forall k :: k in keys ==> k in m
    ensures Overlay(scan, result, m, Recorded(keys))
         == Overlay(scan, result[ReadKey(keys[0]) := ParseValue(scan, Text(m[keys[0]]))], m, Recorded(keys[1..]))
  {
    assert Recorded(keys)[0] == keys[0] && Recorded(keys)[1..] == Recorded(keys[1..]);
  }

  /** Scanning the printed pairs overlays what was recorded with the parsed values, key by key as read. */
  lemma {:induction false} RunBody(scan: FloatScan, st: Scanner, prev: char, m: map<string, Value>, keys: seq<string>)
    requires PlaceOf(st) == TOP && st.value == "" && prev != '\\'
    requires keys != [] && (forall k :: k in keys ==> k in m) && Passes(m, keys)
    ensures Finish(scan, Run(scan, st, prev, Body(m, keys))) == Overlay(scan, st.result, m, Recorded(keys))
    decreases |keys|
  {
    var k, v := keys[0], m[keys[0]];
    var st1 := st.(key := ReadKey(k), value := "");
    BodyCons(m, keys);
    if |keys| == 1 {
      RunKey(scan, st, prev, k, Text(v));
      RunLastValue(scan, st1, v);
      OverlayLast(scan, st.result, m, keys);
    } else {
      var rest := Body(m, keys[1..]);
      RunKey(scan, st, prev, k, Text(v) + "," + rest);
      RunValueComma(scan, st1, v, rest);
      RunBody(scan, st1.(result := st.result[ReadKey(k) := ParseValue(scan, Text(v))]), ',', m, keys[1..]);
      OverlayRecorded(scan, st.result, m, keys);
    }
  }

  /** The claims as the parser represents them. */
  function AsJsonMap(m: map<string, Value>): map<string, Json> {
    map k | k in m :: AsJson(m[k])
  }

  // ----- The payload of a token

  function FromBytes(bytes: seq<Base64.Byte>): string {
    seq(|bytes|, i requires 0 <= i < |bytes| => bytes[i] as char)
  }

  function ToBytes(s: string): seq<Base64.Byte>
    requires forall i :: 0 <= i < |s| ==> s[i] < 256 as char
  {
    seq(|s|, i requires 0 <= i < |s| => s[i] as int)
  }

  function DecodedPayload(scan: FloatScan, payload: seq<Base64.Byte>): Option<map<string, Json>> {
    match Base64.Decoded(payload)
    case Err => None
    case Ok(bytes) => Some(ParsedObject(scan, Trim(FromBytes(bytes), {'{', '}'})))
  }

  /** Printing in the order of the map's iteration. */
  method EncodeJSON(m: map<string, Value>) returns (text: string)
    ensures exists keys :: Enumerates(keys, m.Keys) && text == "{" + Body(m, keys) + "}"
  {
    var keys := Ordering(m.Keys);
    var parts: seq<string> := [];
    for i := 0 to |keys|
      invariant |parts| == i && forall j :: 0 <= j < i ==> parts[j] == PairText(keys[j], m[keys[j]])
    {
      assert keys[i] in keys;
      parts := parts + [PairText(keys[i], m[keys[i]])];
    }
    JoinIsBody(m, keys, parts);
    text := "{" + Join(parts, ',') + "}";
  }

  lemma {:induction false} JoinIsBody(m: map<string, Value>, keys: seq<string>, parts: seq<string>)
    requires |parts| == |keys| && forall k :: k in keys ==> k in m
    requires forall i :: 0 <= i < |parts| ==> parts[i] == PairText(keys[i], m[keys[i]])
    ensures Join(parts, ',') == Body(m, keys)
  {
    if |keys| > 1 {
      JoinIsBody(m, keys[1..], parts[1..]);
    }
  }

  method DecodePayload(scan: FloatScan, payload: seq<Base64.Byte>) returns (claims: Option<map<string, Json>>)
    ensures claims == DecodedPayload(scan, payload)
  {
    var decoded := Base64.DecodeBase64(payload);
    match decoded
    case Err => return None;
    case Ok(bytes) =>
      var result := ParseJSONObject(scan, Trim(FromBytes(bytes), {'{', '}'}));
      return Some(result);
  }

  lemma {:induction false} BodyEdges(m: map<string, Value>, keys: seq<string>)
    requires keys != [] && forall k :: k in keys ==> k in m
    ensures var b := Body(m, keys); b != "" && b[0] == '"' && Solid(b[|b| - 1])
  {
    TrimText(m[keys[0]]);
    if |keys| > 1 {
      BodyEdges(m, keys[1..]);
    }
  }

  lemma TrimBraces(body: string)
    requires body == "" || (body[0] == '"' && Solid(body[|body| - 1]))
    ensures Trim("{" + body + "}", {'{', '}'}) == body
  {
    TrimWrap("{", body, "}", {'{', '}'});
  }

  lemma BytesRoundTrip(s: string)
    requires forall i :: 0 <= i < |s| ==> s[i] < 256 as char
    ensures FromBytes(ToBytes(s)) == s
  {
  }

  /** Decoding an encoded payload parses the printed pairs, whatever they are. */
  lemma PayloadIsBody(scan: FloatScan, m: map<string, Value>, keys: seq<string>, text: string)
    requires Enumerates(keys, m.Keys)
    requires text == "{" + Body(m, keys) + "}" && forall i :: 0 <= i < |text| ==> text[i] < 256 as char
    ensures DecodedPayload(scan, Base64.Encoded(ToBytes(text))) == Some(ParsedObject(scan, Body(m, keys)))
  {
    Base64.RoundTrip(ToBytes(text));
    BytesRoundTrip(text);
    if keys != [] {
      BodyEdges(m, keys);
    }
    TrimBraces(Body(m, keys));
  }
}
