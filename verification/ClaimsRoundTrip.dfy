/** When claims printed and parsed by auth/jwt.go come back: an exact condition, by weighing what the
    scanner can still make of the text against what the claims need. */
module ClaimsRoundTrip {
  import Base64
  import opened ClaimsJson
  import opened MapOrder
  import opened Splitting
  import opened Wrappers

  // ----- Weight

  /** The number of characters other than quotes and blanks. */
  function Weight(s: string): nat {
    if s == "" then 0 else (if s[0] in BLANK then 0 else 1) + Weight(s[1..])
  }

  lemma {:induction false} WeightConcat(a: string, b: string)
    ensures Weight(a + b) == Weight(a) + Weight(b)
  {
    if a == "" {
      assert a + b == b;
    } else {
      WeightConcat(a[1..], b);
      assert (a + b)[1..] == a[1..] + b;
    }
  }

  lemma {:induction false} WeightTrimLeft(s: string, cut: set<char>)
    ensures Weight(TrimLeft(s, cut)) <= Weight(s)
  {
    if s != "" && s[0] in cut {
      WeightTrimLeft(s[1..], cut);
    }
  }

  lemma {:induction false} WeightTrimRight(s: string, cut: set<char>)
    ensures Weight(TrimRight(s, cut)) <= Weight(s)
  {
    if s != "" && s[|s| - 1] in cut {
      var n := |s| - 1;
      WeightTrimRight(s[..n], cut);
      assert s == s[..n] + [s[n]];
      WeightConcat(s[..n], [s[n]]);
    }
  }

  lemma WeightTrim(s: string, cut: set<char>)
    ensures Weight(Trim(s, cut)) <= Weight(s)
  {
    WeightTrimLeft(s, cut);
    WeightTrimRight(TrimLeft(s, cut), cut);
  }

  /** Trimming an edge by hand makes no difference. */
  lemma TrimRightSnoc(s: string, c: char, cut: set<char>)
    requires c in cut
    ensures TrimRight(s + [c], cut) == TrimRight(s, cut)
  {
    assert (s + [c])[..|s|] == s;
  }

  lemma {:induction false} TrimLeftSnoc(s: string, c: char, cut: set<char>)
    requires c in cut
    ensures TrimLeft(s + [c], cut) == TrimLeft(s, cut) + if TrimLeft(s, cut) == "" then "" else [c]
  {
    if s == "" {
      assert s + [c] == [c] && [c][1..] == "";
    } else if s[0] in cut {
      TrimLeftSnoc(s[1..], c, cut);
      assert (s + [c])[1..] == s[1..] + [c];
    }
  }

  lemma TrimInner(inner: string, cut: set<char>)
    requires '[' in cut && ']' in cut
    ensures Trim("[" + inner + "]", cut) == Trim(inner, cut)
  {
    assert ("[" + inner + "]")[1..] == inner + "]";
    TrimLeftSnoc(inner, ']', cut);
    if TrimLeft(inner, cut) != "" {
      TrimRightSnoc(TrimLeft(inner, cut), ']', cut);
    }
  }

  lemma WeightBracketed(inner: string)
    ensures Weight("[" + inner + "]") == Weight(inner) + 2
  {
    WeightConcat("[" + inner, "]");
    WeightConcat("[", inner);
  }

  lemma WeightTrimBracketed(inner: string, cut: set<char>)
    requires '[' in cut && ']' in cut
    ensures Weight(Trim("[" + inner + "]", cut)) + 2 <= Weight("[" + inner + "]")
  {
    WeightBracketed(inner);
    TrimInner(inner, cut);
    WeightTrim(inner, cut);
  }

  lemma Bracketed(s: string)
    requires s != "" && s[0] == '[' && s[|s| - 1] == ']'
    ensures s == "[" + s[1..|s| - 1] + "]"
  {
  }

  /** Brackets at both ends are two characters of weight that trimming takes off. */
  lemma WeightTrimBrackets(s: string, cut: set<char>)
    requires s != "" && s[0] == '[' && s[|s| - 1] == ']' && '[' in cut && ']' in cut
    ensures Weight(Trim(s, cut)) + 2 <= Weight(s)
  {
    Bracketed(s);
    WeightTrimBracketed(s[1..|s| - 1], cut);
  }

  function WeightAll(parts: seq<string>): nat {
    if parts == [] then 0 else Weight(parts[0]) + WeightAll(parts[1..])
  }

  lemma {:induction false} WeightJoin(parts: seq<string>)
    requires parts != []
    ensures Weight(Join(parts, ',')) == WeightAll(parts) + |parts| - 1
  {
    if |parts| > 1 {
      WeightJoin(parts[1..]);
      WeightConcat(parts[0] + [','], Join(parts[1..], ','));
      WeightConcat(parts[0], [',']);
    }
  }

  lemma WeightQuoted(s: string)
    ensures Weight(Quoted(s)) == Weight(s)
  {
    WeightConcat("\"" + s, "\"");
    WeightConcat("\"", s);
  }

  lemma {:induction false} WeightQuotedAll(items: seq<string>)
    ensures WeightAll(QuotedAll(items)) == WeightAll(items)
  {
    if items != [] {
      WeightQuoted(items[0]);
      WeightQuotedAll(items[1..]);
    }
  }

  // ----- What a text must weigh to be parsed as a claim

  lemma StringFromForm(scan: FloatScan, text: string, val: string, s: string)
    requires ParseValue(scan, text) == JString(s) && val == Trim(text, SPACE)
    ensures s == val || s == Trim(val, QUOTE)
  {
  }

  lemma StringNeeds(scan: FloatScan, text: string, s: string)
    requires ParseValue(scan, text) == JString(s)
    ensures Weight(s) <= Weight(text)
  {
    var val := Trim(text, SPACE);
    StringFromForm(scan, text, val, s);
    WeightTrim(text, SPACE);
    WeightTrim(val, QUOTE);
  }

  lemma {:induction false} DigitsNeed(s: string)
    requires s != "" && forall i :: 0 <= i < |s| ==> IsDigit(s[i])
    ensures DigitsValue(s) >= 0 && |NatText(DigitsValue(s))| <= |s|
  {
    var n := |s| - 1;
    if n > 0 {
      DigitsNeed(s[..n]);
      assert DigitsValue(s) / 10 == DigitsValue(s[..n]);
    } else {
      assert s[..0] == "" && DigitsValue(s[..0]) == 0;
    }
  }

  lemma {:induction false} DigitsOfPrefix(s: string)
    ensures var d := DigitPrefix(s); d <= s && forall i :: 0 <= i < |d| ==> IsDigit(d[i])
    ensures |DigitPrefix(s)| <= Weight(s)
  {
    if s != "" && IsDigit(s[0]) {
      DigitsOfPrefix(s[1..]);
    }
  }

  lemma {:induction false} WeightIntText(s: string)
    requires forall i :: 0 <= i < |s| ==> IsDigit(s[i]) || s[i] == '-'
    ensures Weight(s) == |s|
  {
    if s != "" {
      WeightIntText(s[1..]);
    }
  }

  lemma NumberNeeds(digits: string, negative: bool, n: int)
    requires digits != "" && forall i :: 0 <= i < |digits| ==> IsDigit(digits[i])
    requires n == if negative then -DigitsValue(digits) else DigitsValue(digits)
    ensures |IntText(n)| <= |digits| + if negative then 1 else 0
  {
    DigitsNeed(digits);
  }

  lemma ScanFromDigits(val: string, rest: string, signed: bool, n: int)
    requires ScanInt(val) == Some(n)
    requires signed == (|val| > 0 && (val[0] == '-' || val[0] == '+')) && rest == if signed then val[1..] else val
    ensures DigitPrefix(rest) != ""
    ensures n == if signed && val[0] == '-' then -DigitsValue(DigitPrefix(rest)) else DigitsValue(DigitPrefix(rest))
  {
  }

  lemma ScanNeeds(val: string, n: int)
    requires ScanInt(val) == Some(n)
    ensures |IntText(n)| <= Weight(val)
  {
    var signed := |val| > 0 && (val[0] == '-' || val[0] == '+');
    var rest := if signed then val[1..] else val;
    ScanFromDigits(val, rest, signed, n);
    DigitsOfPrefix(rest);
    NumberNeeds(DigitPrefix(rest), signed && val[0] == '-', n);
    assert Weight(val) == Weight(rest) + if signed then 1 else 0;
  }

  lemma IntFromScan(scan: FloatScan, text: string, n: int)
    requires ParseValue(scan, text) == JInt(n)
    ensures ScanInt(Trim(text, SPACE)) == Some(n)
  {
  }

  lemma IntNeeds(scan: FloatScan, text: string, n: int)
    requires ParseValue(scan, text) == JInt(n)
    ensures Weight(Text(VInt(n))) <= Weight(text)
  {
    IntFromScan(scan, text, n);
    ScanNeeds(Trim(text, SPACE), n);
    WeightTrim(text, SPACE);
    IntTextEdges(n);
    WeightIntText(IntText(n));
  }

  lemma {:induction false} ItemsNeed(scan: FloatScan, parts: seq<string>, bound: nat, items: seq<string>)
    requires (forall p :: p in parts ==> |p| < bound) && ParseAll(scan, parts, bound) == Strings(items)
    ensures WeightAll(items) <= WeightAll(parts)
    decreases |parts|
  {
    if parts != [] {
      var parsed := ParseAll(scan, parts, bound);
      assert parsed[0] == Strings(items)[0];
      StringNeeds(scan, parts[0], items[0]);
      assert parsed[1..] == ParseAll(scan, parts[1..], bound) && parsed[1..] == Strings(items[1..]);
      ItemsNeed(scan, parts[1..], bound, items[1..]);
    }
  }

  lemma ListFromForm(scan: FloatScan, text: string, items: seq<Json>)
    requires ParseValue(scan, text) == JList(items)
    ensures FormOf(scan, Trim(text, SPACE)) == ListForm
  {
  }

  lemma ListFormEdges(scan: FloatScan, val: string)
    requires FormOf(scan, val) == ListForm
    ensures val != "" && val[0] == '[' && val[|val| - 1] == ']'
  {
  }

  lemma ListFromParts(scan: FloatScan, text: string, val: string, parts: seq<string>, parsed: Json, items: seq<Json>)
    requires val == Trim(text, SPACE) && FormOf(scan, val) == ListForm
    requires parts == Split(Trim(val, {'[', ']'}), ',') && forall p :: p in parts ==> |p| < |text|
    requires parsed == ParseValue(scan, text) && parsed == JList(items)
    ensures ParseAll(scan, parts, |text|) == items
  {
    ListFormParses(scan, text, val, parts);
  }

  lemma PartsNeed(scan: FloatScan, val: string, inner: string, bound: nat, items: seq<string>)
    requires val != "" && val[0] == '[' && val[|val| - 1] == ']' && inner == Trim(val, {'[', ']'})
    requires forall p :: p in Split(inner, ',') ==> |p| < bound
    requires ParseAll(scan, Split(inner, ','), bound) == Strings(items)
    ensures Weight(Text(VList(items))) <= Weight(val)
  {
    var parts := Split(inner, ',');
    ItemsNeed(scan, parts, bound, items);
    WeightTrimBrackets(val, {'[', ']'});
    JoinSplit(inner, ',');
    WeightJoin(parts);
    ListWeight(items);
  }

  lemma ListNeeds(scan: FloatScan, text: string, items: seq<string>)
    requires ParseValue(scan, text) == JList(Strings(items))
    ensures Weight(Text(VList(items))) <= Weight(text)
  {
    var val := Trim(text, SPACE);
    var inner := Trim(val, {'[', ']'});
    ListFromForm(scan, text, Strings(items));
    ListFormEdges(scan, val);
    PartsShorter(val, |text|);
    ListFromParts(scan, text, val, Split(inner, ','), ParseValue(scan, text), Strings(items));
    PartsNeed(scan, val, inner, |text|, items);
    WeightTrim(text, SPACE);
  }

  lemma ListWeight(items: seq<string>)
    requires items != []
    ensures Weight(Text(VList(items))) == WeightAll(items) + |items| + 1
  {
    WeightBracketed(Join(QuotedAll(items), ','));
    WeightJoin(QuotedAll(items));
    WeightQuotedAll(items);
  }

  /** Nothing lighter than the printed claim is parsed as the claim. */
  lemma ValueNeeds(scan: FloatScan, text: string, v: Value)
    requires ParseValue(scan, text) == AsJson(v)
    ensures Weight(Text(v)) <= Weight(text)
  {
    match v
    case VString(s) =>
      StringNeeds(scan, text, s);
      WeightQuoted(s);
    case VInt(n) => IntNeeds(scan, text, n);
    case VList(items) => ListNeeds(scan, text, items);
  }

  // ----- What the scanner is worth

  /** The weight of a printed pair with its colon and a comma. */
  function Cost(m: map<string, Value>, k: string): nat
    requires k in m
  {
    Weight(k) + Weight(Text(m[k])) + 2
  }

  function Costs(m: map<string, Value>, keys: seq<string>): nat
    requires forall k :: k in keys ==> k in m
  {
    if keys == [] then 0 else Cost(m, keys[0]) + Costs(m, keys[1..])
  }

  lemma {:induction false} WeightBody(m: map<string, Value>, keys: seq<string>)
    requires keys != [] && forall k :: k in keys ==> k in m
    ensures Weight(Body(m, keys)) == Costs(m, keys) - 1
  {
    var k, t := keys[0], Text(m[keys[0]]);
    BodyCons(m, keys);
    WeightQuoted(k);
    WeightConcat(Quoted(k), ":");
    if |keys| == 1 {
      WeightConcat(Quoted(k) + ":", t);
    } else {
      var rest := Body(m, keys[1..]);
      WeightBody(m, keys[1..]);
      WeightConcat(Quoted(k) + ":", t + "," + rest);
      WeightConcat(t + ",", rest);
      WeightConcat(t, ",");
    }
  }

  /** `k` is recorded with its value. */
  predicate Right(m: map<string, Value>, result: map<string, Json>, k: string) {
    k in m && k in result && result[k] == AsJson(m[k])
  }

  /** The cost of the claims that are recorded rightly. */
  function Credit(m: map<string, Value>, all: seq<string>, result: map<string, Json>): nat
    requires forall k :: k in all ==> k in m
  {
    if all == [] then 0
    else (if Right(m, result, all[0]) then Cost(m, all[0]) else 0) + Credit(m, all[1..], result)
  }

  lemma {:induction false} CreditBound(m: map<string, Value>, all: seq<string>, result: map<string, Json>)
    requires forall k :: k in all ==> k in m
    ensures Credit(m, all, result) <= Costs(m, all)
    ensures (forall k :: k in all ==> Right(m, result, k)) ==> Credit(m, all, result) == Costs(m, all)
  {
    if all != [] {
      CreditBound(m, all[1..], result);
    }
  }

  function CreditFor(m: map<string, Value>, all: seq<string>, result: map<string, Json>, k: string): nat
    requires forall k :: k in all ==> k in m
  {
    if k in all && Right(m, result, k) then Cost(m, k) else 0
  }

  /** Recording one key changes the credit for that key only. */
  lemma {:induction false} CreditUpdate(m: map<string, Value>, all: seq<string>, result: map<string, Json>, k: string,
                                        j: Json)
    requires (forall k :: k in all ==> k in m) && forall i, j :: 0 <= i < j < |all| ==> all[i] != all[j]
    ensures Credit(m, all, result[k := j]) + CreditFor(m, all, result, k)
         == Credit(m, all, result) + CreditFor(m, all, result[k := j], k)
  {
    if all != [] {
      var first, rest := all[0], all[1..];
      CreditUpdate(m, rest, result, k, j);
      assert all == [first] + rest && first !in rest;
    }
  }

  /** The weight of the current key, unless it is no claim or already recorded rightly. */
  function Pending(m: map<string, Value>, st: Scanner): nat {
    if st.key in m && !Right(m, st.result, st.key) then Weight(st.key) + 1 else 0
  }

  function Worth(m: map<string, Value>, all: seq<string>, st: Scanner): nat
    requires forall k :: k in all ==> k in m
  {
    Credit(m, all, st.result) + Pending(m, st) + Weight(st.value)
  }

  /** Recording a value is worth a comma at most, and nothing unless a pending key gets its own value
      from a text of just the weight of that. */
  lemma RecordWorth(m: map<string, Value>, all: seq<string>, st: Scanner, st': Scanner, j: Json)
    requires Enumerates(all, m.Keys) && st' == st.(result := st.result[st.key := j], value := "")
    requires st.key in m && j == AsJson(m[st.key]) ==> Weight(Text(m[st.key])) <= Weight(st.value)
    ensures Worth(m, all, st') <= Worth(m, all, st) + 1
    ensures Worth(m, all, st') <= Worth(m, all, st) ||
            (Pending(m, st) > 0 && j == AsJson(m[st.key]) && Weight(st.value) == Weight(Text(m[st.key])))
    ensures Pending(m, st) > 0 && j != AsJson(m[st.key]) ==> Worth(m, all, st') + Weight(st.value) == Worth(m, all, st)
  {
    CreditUpdate(m, all, st.result, st.key, j);
  }

  /** Reading a key is worth a colon at most, and nothing if another key was pending or none is now. */
  lemma KeyWorth(m: map<string, Value>, all: seq<string>, st: Scanner, st': Scanner)
    requires Enumerates(all, m.Keys) && st' == st.(key := Trim(st.value, BLANK), value := "")
    ensures Worth(m, all, st') <= Worth(m, all, st) + 1
    ensures Pending(m, st) > 0 || Pending(m, st') == 0 || Weight(st'.key) < Weight(st.value) ==>
              Worth(m, all, st') <= Worth(m, all, st)
  {
    WeightTrim(st.value, BLANK);
  }

  lemma TrimmedNeeds(scan: FloatScan, text: string, v: Value)
    requires ParseValue(scan, Trim(text, SPACE)) == AsJson(v)
    ensures Weight(Text(v)) <= Weight(text)
  {
    ValueNeeds(scan, Trim(text, SPACE), v);
    WeightTrim(text, SPACE);
  }

  lemma CommaWorth(scan: FloatScan, m: map<string, Value>, all: seq<string>, st: Scanner, prev: char)
    requires Enumerates(all, m.Keys) && PlaceOf(st) == TOP
    ensures var j, st' := ParseValue(scan, Trim(st.value, SPACE)), Step(scan, st, prev, ',');
            && st' == st.(result := st.result[st.key := j], value := "")
            && Worth(m, all, st') <= Worth(m, all, st) + 1
            && (Worth(m, all, st') <= Worth(m, all, st) ||
                (Pending(m, st) > 0 && j == AsJson(m[st.key]) && Weight(st.value) == Weight(Text(m[st.key]))))
            && (Pending(m, st) > 0 && j != AsJson(m[st.key]) ==>
                  Worth(m, all, st') + Weight(st.value) == Worth(m, all, st))
  {
    var j := ParseValue(scan, Trim(st.value, SPACE));
    if st.key in m && j == AsJson(m[st.key]) {
      TrimmedNeeds(scan, st.value, m[st.key]);
    }
    RecordWorth(m, all, st, st.(result := st.result[st.key := j], value := ""), j);
  }

  lemma ColonWorth(scan: FloatScan, m: map<string, Value>, all: seq<string>, st: Scanner, prev: char)
    requires Enumerates(all, m.Keys) && PlaceOf(st) == TOP
    ensures var st' := Step(scan, st, prev, ':');
            && st' == st.(key := Trim(st.value, BLANK), value := "")
            && Worth(m, all, st') <= Worth(m, all, st) + 1
            && (Pending(m, st) > 0 || Pending(m, st') == 0 || Weight(st'.key) < Weight(st.value) ==>
                  Worth(m, all, st') <= Worth(m, all, st))
  {
    KeyWorth(m, all, st, st.(key := Trim(st.value, BLANK), value := ""));
  }

  /** Any other character becomes part of the value. */
  function Grown(st: Scanner, prev: char, c: char): Scanner {
    var at := Moved(PlaceOf(st), prev, c);
    st.(inString := at.inString, depth := at.depth, value := st.value + [c])
  }

  lemma OtherStep(scan: FloatScan, st: Scanner, prev: char, c: char)
    requires !Separates(PlaceOf(st), c)
    ensures Step(scan, st, prev, c) == Grown(st, prev, c)
  {
  }

  lemma GrownWorth(m: map<string, Value>, all: seq<string>, st: Scanner, prev: char, c: char)
    requires Enumerates(all, m.Keys)
    ensures Worth(m, all, Grown(st, prev, c)) == Worth(m, all, st) + Weight([c])
  {
    WeightConcat(st.value, [c]);
  }

  lemma StepWorth(scan: FloatScan, m: map<string, Value>, all: seq<string>, st: Scanner, prev: char, c: char)
    requires Enumerates(all, m.Keys)
    ensures Worth(m, all, Step(scan, st, prev, c)) <= Worth(m, all, st) + Weight([c])
  {
    if !Separates(PlaceOf(st), c) {
      OtherStep(scan, st, prev, c);
      GrownWorth(m, all, st, prev, c);
    } else if c == ',' {
      CommaWorth(scan, m, all, st, prev);
    } else {
      ColonWorth(scan, m, all, st, prev);
    }
  }

  lemma WeightCons(c: char, s: string)
    ensures Weight([c] + s) == Weight([c]) + Weight(s)
  {
    WeightConcat([c], s);
  }

  lemma RunCons(scan: FloatScan, st: Scanner, prev: char, c: char, s: string)
    ensures Run(scan, st, prev, [c] + s) == Run(scan, Step(scan, st, prev, c), c, s)
  {
    assert ([c] + s)[1..] == s;
  }

  /** The scanner gains no more than the weight of what it reads. */
  lemma {:induction false} RunWorth(scan: FloatScan, m: map<string, Value>, all: seq<string>, st: Scanner, prev: char,
                                    s: string)
    requires Enumerates(all, m.Keys)
    ensures Worth(m, all, Run(scan, st, prev, s)) <= Worth(m, all, st) + Weight(s)
    decreases |s|
  {
    if s != "" {
      var c, s' := s[0], s[1..];
      assert s == [c] + s';
      StepWorth(scan, m, all, st, prev, c);
      RunWorth(scan, m, all, Step(scan, st, prev, c), c, s');
      RunCons(scan, st, prev, c, s');
      WeightCons(c, s');
    }
  }

  /** Finishing is worth a comma. */
  lemma FinishWorth(scan: FloatScan, m: map<string, Value>, all: seq<string>, st: Scanner)
    requires Enumerates(all, m.Keys)
    ensures Credit(m, all, Finish(scan, st)) <= Worth(m, all, st) + 1
    ensures Credit(m, all, Finish(scan, st)) <= Worth(m, all, st) ||
            (Pending(m, st) > 0 && Weight(st.value) == Weight(Text(m[st.key])))
  {
    if st.key != "" {
      CommaWorth(scan, m, all, st.(inString := false, depth := 0), ' ');
    }
  }

  /** What is recorded in the end is worth too little for all claims. */
  predicate Loses(scan: FloatScan, m: map<string, Value>, all: seq<string>, st: Scanner, prev: char, s: string)
    requires Enumerates(all, m.Keys)
  {
    Credit(m, all, Finish(scan, Run(scan, st, prev, s))) <= Worth(m, all, st) + Weight(s)
  }

  /** A separator that gains nothing loses its own weight. */
  lemma LosesNow(scan: FloatScan, m: map<string, Value>, all: seq<string>, st: Scanner, prev: char, c: char, s: string)
    requires Enumerates(all, m.Keys) && c !in BLANK
    requires Worth(m, all, Step(scan, st, prev, c)) <= Worth(m, all, st)
    ensures Loses(scan, m, all, st, prev, [c] + s)
  {
    var st' := Step(scan, st, prev, c);
    RunCons(scan, st, prev, c, s);
    WeightCons(c, s);
    RunWorth(scan, m, all, st', c, s);
    FinishWorth(scan, m, all, Run(scan, st', c, s));
  }

  /** What is lost further on is lost. */
  lemma LosesLater(scan: FloatScan, m: map<string, Value>, all: seq<string>, st: Scanner, prev: char, s: string,
                   rest: string)
    requires Enumerates(all, m.Keys)
    requires Loses(scan, m, all, Run(scan, st, prev, s), Last(prev, s), rest)
    ensures Loses(scan, m, all, st, prev, s + rest)
  {
    RunConcat(scan, st, prev, s, rest);
    RunWorth(scan, m, all, st, prev, s);
    WeightConcat(s, rest);
  }

  // ----- Going astray

  /** No other claim's key is a prefix of `k` or continues it. */
  predicate Apart(m: map<string, Value>, k: string) {
    forall k' :: k' in m && k' != k ==> !(k <= k') && !(k' <= k)
  }

  /** Only a text of weight `target` will do at the next separator: that of the pending value or, if there is
      none, of the key `k` with which `text` begins. */
  predicate Awaits(m: map<string, Value>, st: Scanner, text: string, k: string, target: nat) {
    if Pending(m, st) > 0 then target == Weight(Text(m[st.key]))
    else target == Weight(k) && Apart(m, k) && k <= TrimLeft(text, BLANK)
  }

  lemma {:induction false} TrimLeftPrefix(a: string, b: string, cut: set<char>)
    ensures TrimLeft(a, cut) <= TrimLeft(a + b, cut)
  {
    if a != "" {
      if a[0] in cut {
        TrimLeftPrefix(a[1..], b, cut);
        assert (a + b)[1..] == a[1..] + b;
      }
    }
  }

  lemma Comparable(a: string, b: string, c: string)
    requires a <= c && b <= c
    ensures a <= b || b <= a
  {
    if |a| <= |b| {
      assert a == c[..|a|] && b == c[..|b|] && c[..|b|][..|a|] == c[..|a|];
    } else {
      assert b == c[..|b|] && c[..|a|][..|b|] == c[..|b|];
    }
  }

  /** Read from a text that begins with `k`, a claim's key is `k` itself. */
  lemma KeyFromText(m: map<string, Value>, value: string, rest: string, k: string)
    requires Apart(m, k) && k <= TrimLeft(value + rest, BLANK) && Trim(value, BLANK) in m
    ensures Trim(value, BLANK) == k
  {
    TrimLeftPrefix(value, rest, BLANK);
    TrimRightEdge(TrimLeft(value, BLANK), BLANK);
    Comparable(Trim(value, BLANK), k, TrimLeft(value + rest, BLANK));
  }

  /** A separator after a text of another weight than awaited gains nothing. */
  lemma SeparatorWorth(scan: FloatScan, m: map<string, Value>, all: seq<string>, st: Scanner, prev: char, c: char,
                       rest: string, k: string, target: nat)
    requires Enumerates(all, m.Keys) && Separates(PlaceOf(st), c)
    requires Awaits(m, st, st.value + rest, k, target) && Weight(st.value) != target
    ensures Worth(m, all, Step(scan, st, prev, c)) <= Worth(m, all, st)
  {
    if c == ',' {
      CommaWorth(scan, m, all, st, prev);
    } else {
      ColonWorth(scan, m, all, st, prev);
      var key := Trim(st.value, BLANK);
      if Pending(m, st) == 0 && key in m {
        KeyFromText(m, st.value, rest, k);
        WeightTrim(st.value, BLANK);
      }
    }
  }

  /** The first separator at top level. */
  lemma {:induction false} FirstSeparator(at: Place, prev: char, s: string) returns (p: string, c: char, q: string)
    requires Scanned(at, prev, s).None?
    ensures s == p + ([c] + q) && Scanned(at, prev, p).Some? && Separates(Scanned(at, prev, p).value, c)
    decreases |s|
  {
    if Separates(at, s[0]) {
      p, c, q := "", s[0], s[1..];
    } else {
      p, c, q := FirstSeparator(Moved(at, prev, s[0]), s[0], s[1..]);
      p := [s[0]] + p;
    }
  }

  /** Loss at a separator further on. */
  lemma SeparatorLoses(scan: FloatScan, m: map<string, Value>, all: seq<string>, st: Scanner, prev: char, p: string,
                       c: char, q: string, k: string, target: nat)
    requires Enumerates(all, m.Keys) && Scanned(PlaceOf(st), prev, p).Some?
    requires Separates(Scanned(PlaceOf(st), prev, p).value, c)
    requires Awaits(m, st, st.value + (p + ([c] + q)), k, target) && Weight(st.value) + Weight(p) != target
    ensures Loses(scan, m, all, st, prev, p + ([c] + q))
  {
    var at := Scanned(PlaceOf(st), prev, p).value;
    var st' := st.(inString := at.inString, depth := at.depth, value := st.value + p);
    RunScanned(scan, st, prev, p);
    WeightConcat(st.value, p);
    assert st'.value + ([c] + q) == st.value + (p + ([c] + q));
    SeparatorWorth(scan, m, all, st', Last(prev, p), c, [c] + q, k, target);
    LosesNow(scan, m, all, st', Last(prev, p), c, q);
    LosesLater(scan, m, all, st, prev, p, [c] + q);
  }

  /** Loss at the end. */
  lemma EndLoses(scan: FloatScan, m: map<string, Value>, all: seq<string>, st: Scanner, prev: char, s: string,
                 k: string, target: nat)
    requires Enumerates(all, m.Keys) && Scanned(PlaceOf(st), prev, s).Some?
    requires Awaits(m, st, st.value + s, k, target) && Weight(st.value) + Weight(s) != target
    ensures Loses(scan, m, all, st, prev, s)
  {
    var at := Scanned(PlaceOf(st), prev, s).value;
    var st' := st.(inString := at.inString, depth := at.depth, value := st.value + s);
    RunScanned(scan, st, prev, s);
    WeightConcat(st.value, s);
    FinishWorth(scan, m, all, st');
  }

  /** The first separator at top level, in a text that begins with `s`. */
  lemma SeparatorWithin(at: Place, prev: char, s: string, text: string) returns (p: string, c: char, q: string)
    requires Scanned(at, prev, s).None? && s <= text
    ensures text == p + ([c] + q) && Scanned(at, prev, p).Some? && Separates(Scanned(at, prev, p).value, c)
    ensures Weight(p) < Weight(s)
  {
    p, c, q := FirstSeparator(at, prev, s);
    LighterPrefix(p, c, q);
    q := q + text[|s|..];
    assert text == s + text[|s|..];
  }

  lemma LighterPrefix(p: string, c: char, q: string)
    requires c !in BLANK
    ensures Weight(p) < Weight(p + ([c] + q))
  {
    WeightConcat(p, [c] + q);
    WeightCons(c, q);
  }

  /** A separator before the awaited text is complete. */
  lemma EarlyLoses(scan: FloatScan, m: map<string, Value>, all: seq<string>, st: Scanner, prev: char, s: string,
                   text: string, k: string, target: nat)
    requires Enumerates(all, m.Keys) && Scanned(PlaceOf(st), prev, s).None? && s <= text
    requires Awaits(m, st, st.value + text, k, target) && Weight(st.value) + Weight(s) <= target
    ensures Loses(scan, m, all, st, prev, text)
  {
    var p, c, q := SeparatorWithin(PlaceOf(st), prev, s, text);
    SeparatorLoses(scan, m, all, st, prev, p, c, q, k, target);
  }

  /** A text that is whole but does not end at the top level goes on beyond the separator. */
  lemma LateLoses(scan: FloatScan, m: map<string, Value>, all: seq<string>, st: Scanner, prev: char, c: char,
                  rest: string, k: string, target: nat)
    requires Enumerates(all, m.Keys) && PlaceOf(st) != TOP && c !in BLANK
    requires Awaits(m, st, st.value + ([c] + rest), k, target) && Weight(st.value) == target
    ensures Loses(scan, m, all, st, prev, [c] + rest)
  {
    WeightCons(c, rest);
    if Scanned(PlaceOf(st), prev, [c] + rest).Some? {
      EndLoses(scan, m, all, st, prev, [c] + rest, k, target);
    } else {
      var p, c', q := FirstSeparator(PlaceOf(st), prev, [c] + rest);
      if p == "" {
        assert false;
      }
      assert p == [c] + p[1..] by { assert p[0] == (p + ([c'] + q))[0]; }
      WeightCons(c, p[1..]);
      SeparatorLoses(scan, m, all, st, prev, p, c', q, k, target);
    }
  }

  /** A text that is not transparent, where it alone and then a separator is awaited. */
  lemma OpaqueLoses(scan: FloatScan, m: map<string, Value>, all: seq<string>, st: Scanner, prev: char, s: string,
                    c: char, rest: string, k: string)
    requires Enumerates(all, m.Keys) && PlaceOf(st) == TOP && st.value == "" && prev != '\\' && !Transparent(s)
    requires Awaits(m, st, s + ([c] + rest), k, Weight(s)) && c !in BLANK
    ensures Loses(scan, m, all, st, prev, s + ([c] + rest))
  {
    ScannedFrom(TOP, prev, s);
    assert "" + s == s && "" + (s + ([c] + rest)) == s + ([c] + rest);
    if Whole(s) {
      var at := Scanned(TOP, prev, s).value;
      var st' := st.(inString := at.inString, depth := at.depth, value := s);
      RunScanned(scan, st, prev, s);
      LateLoses(scan, m, all, st', Last(prev, s), c, rest, k, Weight(s));
      LosesLater(scan, m, all, st, prev, s, [c] + rest);
    } else {
      EarlyLoses(scan, m, all, st, prev, s, s + ([c] + rest), k, Weight(s));
    }
  }

  // ----- The exact condition

  /** What is asked of claims for the condition to be exact: 64-bit numbers, and keys that pass through the
      scanner or are no prefix of one another. */
  ghost predicate Distinguished(m: map<string, Value>) {
    forall k :: k in m ==> InRange(m[k]) && (Transparent(Quoted(k)) || Apart(m, k))
  }

  /** Just before the pairs of `keys` are read, all others are recorded, rightly. */
  ghost predicate Aligned(m: map<string, Value>, all: seq<string>, st: Scanner, keys: seq<string>) {
    && Enumerates(all, m.Keys)
    && (forall k :: k in keys ==> k in m) && (forall i, j :: 0 <= i < j < |keys| ==> keys[i] != keys[j])
    && PlaceOf(st) == TOP && st.value == ""
    && OthersRight(m, st.result, keys)
    && Credit(m, all, st.result) + Costs(m, keys) == Costs(m, all)
  }

  ghost predicate OthersRight(m: map<string, Value>, result: map<string, Json>, keys: seq<string>) {
    && (forall k :: k in m ==> if k in keys then k !in result else Right(m, result, k))
    && (forall k :: k in result ==> k in m)
  }

  lemma LosesMeans(scan: FloatScan, m: map<string, Value>, all: seq<string>, st: Scanner, prev: char, s: string)
    requires Enumerates(all, m.Keys) && Loses(scan, m, all, st, prev, s)
    requires Worth(m, all, st) + Weight(s) < Costs(m, all)
    ensures Finish(scan, Run(scan, st, prev, s)) != AsJsonMap(m)
  {
    CreditBound(m, all, Finish(scan, Run(scan, st, prev, s)));
  }

  lemma KeyBegins(k: string, rest: string)
    requires k != "" && Core(k, BLANK)
    ensures k <= TrimLeft(Quoted(k) + rest, BLANK)
  {
    TrimLeftWrap("\"", k + "\"" + rest, BLANK);
    assert Quoted(k) + rest == "\"" + (k + "\"" + rest);
  }

  lemma OpaqueKeyAwaits(m: map<string, Value>, st: Scanner, k: string, rest: string)
    requires Pending(m, st) == 0 && Core(k, BLANK) && Apart(m, k) && !Transparent(Quoted(k))
    ensures Awaits(m, st, Quoted(k) + rest, k, Weight(Quoted(k)))
  {
    EmptyKey(k);
    WeightQuoted(k);
    KeyBegins(k, rest);
  }

  /** A key that does not pass is not found again. */
  lemma OpaqueKey(scan: FloatScan, m: map<string, Value>, all: seq<string>, st: Scanner, prev: char, k: string,
                  rest: string, text: string)
    requires Enumerates(all, m.Keys) && PlaceOf(st) == TOP && st.value == "" && prev != '\\' && Pending(m, st) == 0
    requires Core(k, BLANK) && Apart(m, k) && !Transparent(Quoted(k))
    requires text == Quoted(k) + ([':'] + rest) && Worth(m, all, st) + Weight(text) < Costs(m, all)
    ensures Finish(scan, Run(scan, st, prev, text)) != AsJsonMap(m)
  {
    OpaqueKeyAwaits(m, st, k, [':'] + rest);
    OpaqueLoses(scan, m, all, st, prev, Quoted(k), ':', rest, k);
    LosesMeans(scan, m, all, st, prev, text);
  }

  lemma ColonAfter(q: string, rest: string)
    ensures q + ":" + rest == q + ([':'] + rest)
  {
  }

  lemma EmptyKey(k: string)
    ensures k == "" ==> Transparent(Quoted(k))
  {
    if k == "" {
      ScannedQuoted(TOP, ' ', k);
    }
  }

  lemma TailWeight(m: map<string, Value>, keys: seq<string>, tail: string)
    requires keys != [] && (forall k :: k in keys ==> k in m) && Body(m, keys) == Quoted(keys[0]) + ":" + tail
    ensures Weight(keys[0]) + 1 + Weight(tail) == Costs(m, keys) - 1
  {
    WeightBody(m, keys);
    WeightQuoted(keys[0]);
    WeightConcat(Quoted(keys[0]) + ":", tail);
    WeightConcat(Quoted(keys[0]), ":");
  }

  /** After a key has been read nothing may be lost. */
  lemma AlignedWorth(m: map<string, Value>, all: seq<string>, st: Scanner, keys: seq<string>, tail: string)
    requires Aligned(m, all, st, keys) && keys != [] && st.key == keys[0]
    requires Body(m, keys) == Quoted(keys[0]) + ":" + tail
    ensures Pending(m, st) > 0 && Worth(m, all, st) + Weight(tail) < Costs(m, all)
  {
    TailWeight(m, keys, tail);
    assert keys[0] in keys;
  }

  lemma LastRecorded(m: map<string, Value>, result: map<string, Json>, k: string, j: Json)
    requires k in m && k !in result && (forall x :: x in result ==> x in m)
    requires forall x :: x in m && x != k ==> Right(m, result, x)
    ensures result != AsJsonMap(m) && (result[k := j] == AsJsonMap(m) <==> j == AsJson(m[k]))
  {
    assert k in AsJsonMap(m);
    assert result[k := j][k] == j;
  }

  /** The last pair, after its key. */
  lemma LastValue(scan: FloatScan, m: map<string, Value>, all: seq<string>, st: Scanner, k: string)
    requires RejectsBrackets(scan) && Aligned(m, all, st, [k]) && InRange(m[k]) && st.key == k
    ensures Finish(scan, Run(scan, st, ':', Text(m[k]))) == AsJsonMap(m) <==>
            Whole(Text(m[k])) && k != "" && Faithful(m[k])
  {
    var t := Text(m[k]);
    assert k in [k];
    if Whole(t) {
      RunLastValue(scan, st, m[k]);
      ValueRoundTrip(scan, m[k]);
      LastRecorded(m, st.result, k, ParseValue(scan, t));
    } else {
      ScannedFrom(TOP, ':', t);
      assert st.value + t == t;
      EarlyLoses(scan, m, all, st, ':', t, t, k, Weight(t));
      AlignedWorth(m, all, st, [k], t);
      LosesMeans(scan, m, all, st, ':', t);
    }
  }

  /** A value that others follow and that does not pass. */
  lemma OpaqueValue(scan: FloatScan, m: map<string, Value>, all: seq<string>, st: Scanner, t: string, rest: string)
    requires Enumerates(all, m.Keys) && PlaceOf(st) == TOP && st.value == "" && Pending(m, st) > 0
    requires Worth(m, all, st) + Weight(t + "," + rest) < Costs(m, all)
    requires t == Text(m[st.key]) && !Transparent(t)
    ensures Finish(scan, Run(scan, st, ':', t + "," + rest)) != AsJsonMap(m)
  {
    assert t + "," + rest == t + ([','] + rest);
    OpaqueLoses(scan, m, all, st, ':', t, ',', rest, st.key);
    LosesMeans(scan, m, all, st, ':', t + "," + rest);
  }

  /** A value that others follow and that is read as another. */
  lemma UnfaithfulValue(scan: FloatScan, m: map<string, Value>, all: seq<string>, st: Scanner, v: Value, j: Json,
                        rest: string)
    requires Enumerates(all, m.Keys) && PlaceOf(st) == TOP && st.value == "" && Pending(m, st) > 0
    requires Worth(m, all, st) + Weight(Text(v) + "," + rest) < Costs(m, all)
    requires v == m[st.key] && Transparent(Text(v)) && j == ParseValue(scan, Text(v)) && j != AsJson(v)
    ensures Finish(scan, Run(scan, st, ':', Text(v) + "," + rest)) != AsJsonMap(m)
  {
    var t := Text(v);
    var st2 := st.(result := st.result[st.key := j]);
    RunValueComma(scan, st, v, rest);
    RecordWorth(m, all, st, st2, j);
    RunWorth(scan, m, all, st2, ',', rest);
    FinishWorth(scan, m, all, Run(scan, st2, ',', rest));
    WeightConcat(t + ",", rest);
    WeightConcat(t, ",");
    LosesMeans(scan, m, all, st, ':', t + "," + rest);
  }

  lemma OthersRightNext(m: map<string, Value>, result: map<string, Json>, k: string, rest: seq<string>)
    requires OthersRight(m, result, [k] + rest) && k in m && k !in rest
    ensures OthersRight(m, result[k := AsJson(m[k])], rest)
  {
    var result' := result[k := AsJson(m[k])];
    forall x | x in m
      ensures if x in rest then x !in result' else Right(m, result', x)
    {
      assert x in [k] + rest <==> x == k || x in rest;
    }
  }

  lemma CreditNext(m: map<string, Value>, all: seq<string>, result: map<string, Json>, k: string)
    requires Enumerates(all, m.Keys) && k in m && k !in result
    ensures Credit(m, all, result[k := AsJson(m[k])]) == Credit(m, all, result) + Cost(m, k)
  {
    CreditUpdate(m, all, result, k, AsJson(m[k]));
  }

  /** A pair read as it should be leaves the scanner before the next. */
  lemma AlignedNext(m: map<string, Value>, all: seq<string>, st: Scanner, st': Scanner, keys: seq<string>)
    requires Aligned(m, all, st, keys) && keys != [] && st' == st.(result := st.result[keys[0] := AsJson(m[keys[0]])])
    ensures Aligned(m, all, st', keys[1..])
  {
    var k, rest := keys[0], keys[1..];
    assert keys == [k] + rest && k !in rest;
    OthersRightNext(m, st.result, k, rest);
    CreditNext(m, all, st.result, k);
  }

  /** The first pair, if others follow. */
  lemma NextValue(scan: FloatScan, m: map<string, Value>, all: seq<string>, st: Scanner, keys: seq<string>,
                  rest: string)
    requires RejectsBrackets(scan) && Aligned(m, all, st, keys) && |keys| > 1 && rest == Body(m, keys[1..])
    requires InRange(m[keys[0]]) && st.key == keys[0] && !(Transparent(Text(m[keys[0]])) && Faithful(m[keys[0]]))
    ensures Finish(scan, Run(scan, st, ':', Text(m[keys[0]]) + "," + rest)) != AsJsonMap(m)
  {
    var v, t := m[keys[0]], Text(m[keys[0]]);
    BodyCons(m, keys);
    AlignedWorth(m, all, st, keys, t + "," + rest);
    if !Transparent(t) {
      OpaqueValue(scan, m, all, st, t, rest);
    } else {
      ValueRoundTrip(scan, v);
      UnfaithfulValue(scan, m, all, st, v, ParseValue(scan, t), rest);
    }
  }

  /** What is left to be shown of the pairs of `keys`. */
  predicate Survive(m: map<string, Value>, keys: seq<string>)
    requires forall k :: k in keys ==> k in m
  {
    keys != [] ==> Passes(m, keys) && keys[|keys| - 1] != "" && forall k :: k in keys ==> Faithful(m[k])
  }

  lemma SurviveCons(m: map<string, Value>, keys: seq<string>)
    requires |keys| > 1 && forall k :: k in keys ==> k in m
    ensures Survive(m, keys) <==>
              && Transparent(Quoted(keys[0])) && Transparent(Text(m[keys[0]])) && Faithful(m[keys[0]])
              && Survive(m, keys[1..])
  {
    assert keys == [keys[0]] + keys[1..];
    assert keys[1..][|keys| - 2] == keys[|keys| - 1];
  }

  /** Reading the pairs of `keys` completes the claims exactly if all of them pass, the last key is not empty
      and every value is faithful. */
  lemma {:induction false} ExactBody(scan: FloatScan, m: map<string, Value>, all: seq<string>, st: Scanner, prev: char,
                                     keys: seq<string>)
    requires RejectsBrackets(scan) && Distinguished(m) && forall k :: k in m ==> Core(k, BLANK)
    requires Aligned(m, all, st, keys) && keys != [] && prev != '\\'
    requires Pending(m, st) == 0 || Transparent(Quoted(keys[0]))
    ensures Finish(scan, Run(scan, st, prev, Body(m, keys))) == AsJsonMap(m) <==> Survive(m, keys)
    decreases |keys|, 0
  {
    var k, t := keys[0], Text(m[keys[0]]);
    BodyCons(m, keys);
    assert k in keys;
    if !Transparent(Quoted(k)) {
      WeightBody(m, keys);
      var rest := if |keys| == 1 then t else t + "," + Body(m, keys[1..]);
      ColonAfter(Quoted(k), rest);
      OpaqueKey(scan, m, all, st, prev, k, rest, Body(m, keys));
    } else {
      ReadKeyIff(k);
      var st' := st.(key := k, value := "");
      if |keys| == 1 {
        RunKey(scan, st, prev, k, t);
        assert keys == [k];
        LastValue(scan, m, all, st', k);
      } else {
        RunKey(scan, st, prev, k, t + "," + Body(m, keys[1..]));
        ExactTail(scan, m, all, st', keys, Body(m, keys[1..]));
      }
    }
  }

  lemma {:induction false} ExactTail(scan: FloatScan, m: map<string, Value>, all: seq<string>, st: Scanner,
                                     keys: seq<string>, rest: string)
    requires RejectsBrackets(scan) && Distinguished(m) && forall k :: k in m ==> Core(k, BLANK)
    requires Aligned(m, all, st, keys) && |keys| > 1 && rest == Body(m, keys[1..])
    requires st.key == keys[0] && Transparent(Quoted(keys[0]))
    ensures Finish(scan, Run(scan, st, ':', Text(m[keys[0]]) + "," + rest)) == AsJsonMap(m) <==> Survive(m, keys)
    decreases |keys| - 1, 1
  {
    var k, v := keys[0], m[keys[0]];
    SurviveCons(m, keys);
    if Transparent(Text(v)) && Faithful(v) {
      var st' := st.(result := st.result[k := AsJson(v)]);
      ValueRoundTrip(scan, v);
      RunValueComma(scan, st, v, rest);
      AlignedNext(m, all, st, st', keys);
      ExactBody(scan, m, all, st', ',', keys[1..]);
    } else {
      NextValue(scan, m, all, st, keys, rest);
    }
  }

  // ----- Objects

  /** No key has a blank or a quote at either end, and the last is not empty. */
  predicate Readable(keys: seq<string>) {
    (forall k :: k in keys ==> Core(k, BLANK)) && (keys != [] ==> keys[|keys| - 1] != "")
  }

  /** Only keys as read are recorded. */
  lemma {:induction false} KeysAreCore(scan: FloatScan, st: Scanner, prev: char, s: string)
    requires Core(st.key, BLANK) && forall k :: k in st.result ==> Core(k, BLANK)
    ensures var st' := Run(scan, st, prev, s); Core(st'.key, BLANK) && forall k :: k in st'.result ==> Core(k, BLANK)
    decreases |s|
  {
    if s != "" {
      TrimIsCore(st.value, BLANK);
      KeysAreCore(scan, Step(scan, st, prev, s[0]), s[0], s[1..]);
    }
  }

  lemma EdgeKeyLost(scan: FloatScan, m: map<string, Value>, text: string, k: string)
    requires k in m && !Core(k, BLANK)
    ensures ParsedObject(scan, text) != AsJsonMap(m)
  {
    KeysAreCore(scan, START, ' ', text);
    assert k in AsJsonMap(m) && k !in ParsedObject(scan, text);
  }

  lemma {:induction false} NoCredit(m: map<string, Value>, all: seq<string>)
    requires forall k :: k in all ==> k in m
    ensures Credit(m, all, map[]) == 0
  {
    if all != [] {
      NoCredit(m, all[1..]);
    }
  }

  /** The empty key, current at the start, is a prefix of every other. */
  lemma StartKey(m: map<string, Value>, k: string)
    requires Distinguished(m) && k in m
    ensures Pending(m, START) == 0 || Transparent(Quoted(k))
  {
    EmptyKey(k);
    if Apart(m, k) && k != "" {
      assert "" <= k;
    }
  }

  /** Parsing what was printed gives the original claims back iff no key has a blank or a quote at either end,
      the key printed last is not empty, keys and values pass through the scanner, and all values are faithful. */
  lemma ObjectRoundTrip(scan: FloatScan, m: map<string, Value>, keys: seq<string>)
    requires RejectsBrackets(scan) && Distinguished(m) && Enumerates(keys, m.Keys)
    ensures ParsedObject(scan, Body(m, keys)) == AsJsonMap(m) <==>
              Readable(keys) && Passes(m, keys) && forall k :: k in m ==> Faithful(m[k])
  {
    if k :| k in m && !Core(k, BLANK) {
      EdgeKeyLost(scan, m, Body(m, keys), k);
      assert k in keys;
    } else if keys == [] {
      assert m == map[];
    } else {
      NoCredit(m, keys);
      assert keys[0] in keys;
      StartKey(m, keys[0]);
      ExactBody(scan, m, keys, START, ' ', keys);
      assert forall k :: k in keys <==> k in m;
    }
  }

  /** The claims that can be printed without escaping. */
  predicate CleanClaims(m: map<string, Value>) {
    forall k :: k in m ==> Clean(k) && CleanValue(m[k]) && InRange(m[k])
  }

  lemma {:induction false} CleanPasses(m: map<string, Value>, keys: seq<string>)
    requires CleanClaims(m) && forall k :: k in keys ==> k in m
    ensures Passes(m, keys)
  {
    if keys != [] {
      ScannedQuoted(TOP, ' ', keys[0]);
      CleanTransparent(m[keys[0]]);
      CleanPasses(m, keys[1..]);
    }
  }

  /** Without quotes and final backslashes only an empty last key, blanks around keys, empty lists and commas
      in items matter. */
  lemma CleanRoundTrip(scan: FloatScan, m: map<string, Value>, keys: seq<string>)
    requires RejectsBrackets(scan) && CleanClaims(m) && Enumerates(keys, m.Keys)
    ensures ParsedObject(scan, Body(m, keys)) == AsJsonMap(m) <==>
              Readable(keys) && forall k :: k in m && m[k].VList? ==>
                                  m[k].items != [] && forall s :: s in m[k].items ==> ',' !in s
  {
    forall k | k in m
      ensures Transparent(Quoted(k))
    {
      ScannedQuoted(TOP, ' ', k);
    }
    ObjectRoundTrip(scan, m, keys);
    CleanPasses(m, keys);
    forall k | k in m
      ensures Faithful(m[k]) <==> (m[k].VList? ==> m[k].items != [] && forall s :: s in m[k].items ==> ',' !in s)
    {
      CleanCores(m[k]);
    }
  }

  lemma CleanCores(v: Value)
    requires CleanValue(v)
    ensures Faithful(v) <==> (v.VList? ==> v.items != [] && forall s :: s in v.items ==> ',' !in s)
  {
    assert forall s: string :: Clean(s) ==> Core(s, QUOTE);
  }

  /** A single claim, whatever its key and value: the key has to pass, the value to be whole. */
  lemma SingleRoundTrip(scan: FloatScan, k: string, v: Value)
    requires RejectsBrackets(scan) && InRange(v)
    ensures ParsedObject(scan, PairText(k, v)) == map[k := AsJson(v)] <==>
              k != "" && Core(k, BLANK) && Transparent(Quoted(k)) && Whole(Text(v)) && Faithful(v)
  {
    var m := map[k := v];
    assert AsJsonMap(m) == map[k := AsJson(v)];
    ObjectRoundTrip(scan, m, [k]);
    assert k in [k] && Body(m, [k]) == PairText(k, v);
  }

  /** A claim that comes back in every order, if all others do. */
  predicate Survivor(m: map<string, Value>, k: string)
    requires k in m
  {
    && k != "" && Core(k, BLANK) && Transparent(Quoted(k)) && Faithful(m[k])
    && if |m| == 1 then Whole(Text(m[k])) else Transparent(Text(m[k]))
  }

  lemma {:induction false} AllPass(m: map<string, Value>, keys: seq<string>)
    requires forall k :: k in keys ==> k in m && Survivor(m, k)
    requires |m| == 1 ==> |keys| <= 1
    ensures Passes(m, keys)
  {
    if keys != [] {
      assert keys[0] in keys;
      AllPass(m, keys[1..]);
    }
  }

  lemma SurvivorsReturn(scan: FloatScan, m: map<string, Value>, keys: seq<string>)
    requires RejectsBrackets(scan) && Distinguished(m) && Enumerates(keys, m.Keys)
    requires forall k :: k in m ==> Survivor(m, k)
    ensures ParsedObject(scan, Body(m, keys)) == AsJsonMap(m)
  {
    assert keys != [] ==> keys[|keys| - 1] in keys;
    EnumerationSize(keys, m.Keys);
    AllPass(m, keys);
    ObjectRoundTrip(scan, m, keys);
  }

  /** An empty key is lost when it comes last, any other that does not survive when it comes first. */
  function BadOrder(k: string, others: seq<string>): seq<string> {
    if k == "" then others + [k] else [k] + others
  }

  lemma OthersReturnNot(scan: FloatScan, m: map<string, Value>, k: string, others: seq<string>)
    requires RejectsBrackets(scan) && Distinguished(m) && Enumerates(others, m.Keys - {k})
    requires k in m && !Survivor(m, k)
    ensures Enumerates(BadOrder(k, others), m.Keys)
    ensures ParsedObject(scan, Body(m, BadOrder(k, others))) != AsJsonMap(m)
  {
    var keys := BadOrder(k, others);
    assert Enumerates(keys, m.Keys);
    EnumerationSize(keys, m.Keys);
    ObjectRoundTrip(scan, m, keys);
    assert k in keys;
  }

  /** In whatever order the map yields its keys the claims come back iff each of them is a survivor. */
  lemma EveryOrderRoundTrip(scan: FloatScan, m: map<string, Value>)
    requires RejectsBrackets(scan) && Distinguished(m)
    ensures (forall keys :: Enumerates(keys, m.Keys) ==> ParsedObject(scan, Body(m, keys)) == AsJsonMap(m)) <==>
              forall k :: k in m ==> Survivor(m, k)
  {
    if k :| k in m && !Survivor(m, k) {
      var others := SomeOrder(m.Keys - {k});
      OthersReturnNot(scan, m, k, others);
    } else {
      forall keys | Enumerates(keys, m.Keys)
        ensures ParsedObject(scan, Body(m, keys)) == AsJsonMap(m)
      {
        SurvivorsReturn(scan, m, keys);
      }
    }
  }

  // ----- The payload of a token

  /** The whole codec: what is printed, base64url encoded, decoded and parsed again. */
  lemma PayloadRoundTrip(scan: FloatScan, m: map<string, Value>, keys: seq<string>, text: string)
    requires RejectsBrackets(scan) && Distinguished(m) && Enumerates(keys, m.Keys)
    requires text == "{" + Body(m, keys) + "}" && forall i :: 0 <= i < |text| ==> text[i] < 256 as char
    ensures DecodedPayload(scan, Base64.Encoded(ToBytes(text))) == Some(AsJsonMap(m)) <==>
              Readable(keys) && Passes(m, keys) && forall k :: k in m ==> Faithful(m[k])
  {
    PayloadIsBody(scan, m, keys, text);
    ObjectRoundTrip(scan, m, keys);
  }

  // ----- Quotes and backslashes

  /** A final backslash hides the closing quote: the text is whole but does not end where it began. */
  lemma FinalBackslash(s: string)
    requires '"' !in s && s != "" && s[|s| - 1] == '\\'
    ensures Whole(Quoted(s)) && !Transparent(Quoted(s))
  {
    var inside := Place(true, 0);
    assert Quoted(s) == "\"" + (s + "\"");
    assert Scanned(TOP, ' ', "\"") == Some(inside);
    ScannedConcat(TOP, ' ', "\"", s + "\"");
    ScannedInside(inside, '"', s);
    ScannedConcat(inside, '"', s, "\"");
  }

  /** No quotes, separators, brackets or backslashes. */
  predicate Plain(s: string) {
    forall i :: 0 <= i < |s| ==> s[i] !in {'"', ':', ',', '[', ']', '{', '}', '\\'}
  }

  lemma {:induction false} ScannedPlain(prev: char, s: string)
    requires Plain(s)
    ensures Scanned(TOP, prev, s) == Some(TOP)
    decreases |s|
  {
    if s != "" {
      ScannedPlain(s[0], s[1..]);
    }
  }

  /** Quotes in a string do no harm as long as what they leave outside is plain. */
  lemma InnerQuotes(a: string, b: string, c: string)
    requires Clean(a) && Plain(b) && Clean(c)
    ensures Transparent(Quoted(a + "\"" + b + "\"" + c))
  {
    var rest := b + Quoted(c);
    assert Quoted(a + "\"" + b + "\"" + c) == Quoted(a) + rest;
    ScannedQuoted(TOP, ' ', a);
    ScannedConcat(TOP, ' ', Quoted(a), rest);
    ScannedPlain('"', b);
    ScannedConcat(TOP, '"', b, Quoted(c));
    ScannedQuoted(TOP, Last('"', b), c);
  }
}
