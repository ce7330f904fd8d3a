/** What the value parser of auth/jwt.go makes of texts that the printer does not write. */
module ClaimsForms {
  import opened ClaimsJson
  import opened Splitting
  import opened Wrappers

  /** White space: blank, tabulators, line and page breaks. */
  predicate Blank(s: string) {
    forall i :: 0 <= i < |s| ==> s[i] in [' ', '\t', '\n', '\r', 11 as char, 12 as char]
  }

  /** White space around a text that has none at its ends does not matter. */
  lemma BlanksIgnored(scan: FloatScan, pre: string, text: string, post: string)
    requires Blank(pre) && Blank(post) && Core(text, SPACE)
    ensures ParseValue(scan, pre + text + post) == ParseValue(scan, text)
  {
    TrimWrap(pre, text, post, SPACE);
    CoreTrims(text);
    SameForm(scan, pre + text + post, text);
  }

  lemma SameForm(scan: FloatScan, s: string, t: string)
    requires Trim(s, SPACE) == t == Trim(t, SPACE)
    ensures ParseValue(scan, s) == ParseValue(scan, t)
  {
    if FormOf(scan, t) == ListForm {
      var parts := Split(Trim(t, {'[', ']'}), ',');
      PartsShorter(t, |t|);
      SameItems(scan, s, t, parts);
    } else {
      NoListForm(scan, s, t);
    }
  }

  lemma NoListForm(scan: FloatScan, s: string, t: string)
    requires Trim(s, SPACE) == t == Trim(t, SPACE) && FormOf(scan, t) != ListForm
    ensures ParseValue(scan, s) == ParseValue(scan, t)
  {
  }

  lemma SameItems(scan: FloatScan, s: string, t: string, parts: seq<string>)
    requires Trim(s, SPACE) == t == Trim(t, SPACE) && FormOf(scan, t) == ListForm
    requires parts == Split(Trim(t, {'[', ']'}), ',') && |t| <= |s| && forall p :: p in parts ==> |p| < |t|
    ensures ParseValue(scan, s) == ParseValue(scan, t)
  {
    ListFormParses(scan, s, t, parts);
    ListFormParses(scan, t, t, parts);
    BoundIrrelevant(scan, parts, |s|, |t|);
  }

  lemma BoundIrrelevant(scan: FloatScan, parts: seq<string>, m: nat, n: nat)
    requires forall p :: p in parts ==> |p| < m && |p| < n
    ensures ParseAll(scan, parts, m) == ParseAll(scan, parts, n)
  {
    forall i | 0 <= i < |parts|
      ensures ParseAll(scan, parts, m)[i] == ParseAll(scan, parts, n)[i]
    {
      ParseAllAt(scan, parts, m, i);
      ParseAllAt(scan, parts, n, i);
    }
  }

  /** The keywords, with white space around them or not. */
  lemma KeywordsParse(scan: FloatScan, pre: string, post: string)
    requires Blank(pre) && Blank(post)
    ensures ParseValue(scan, pre + "true" + post) == JBool(true)
    ensures ParseValue(scan, pre + "false" + post) == JBool(false)
    ensures ParseValue(scan, pre + "null" + post) == JNull
  {
    BlanksIgnored(scan, pre, "true", post);
    BlanksIgnored(scan, pre, "false", post);
    BlanksIgnored(scan, pre, "null", post);
    PlainKeyword(scan, "true");
    PlainKeyword(scan, "false");
    PlainKeyword(scan, "null");
  }

  lemma PlainKeyword(scan: FloatScan, word: string)
    requires word in ["true", "false", "null"]
    ensures ParseValue(scan, word) == if word == "null" then JNull else JBool(word == "true")
  {
    CoreTrims(word);
  }

  lemma {:induction false} DigitPrefixOf(s: string, rest: string)
    requires (forall i :: 0 <= i < |s| ==> IsDigit(s[i])) && (rest == "" || !IsDigit(rest[0]))
    ensures DigitPrefix(s + rest) == s
  {
    if s == "" {
      assert s + rest == rest;
    } else {
      DigitPrefixOf(s[1..], rest);
      assert (s + rest)[1..] == s[1..] + rest;
    }
  }

  /** A number is read up to its last digit; what follows is ignored. */
  lemma NatThenRest(n: nat, rest: string)
    requires n < 0x8000_0000_0000_0000 && (rest == "" || !IsDigit(rest[0]))
    ensures ScanInt(NatText(n) + rest) == Some(n) && ScanInt("+" + (NatText(n) + rest)) == Some(n)
  {
    var digits := NatText(n);
    NatTextValue(n);
    DigitPrefixOf(digits, rest);
    assert ("+" + (digits + rest))[1..] == digits + rest;
    assert IsDigit(digits[0]) && (digits + rest)[0] == digits[0];
  }

  lemma NegativeThenRest(n: nat, rest: string)
    requires n <= 0x8000_0000_0000_0000 && (rest == "" || !IsDigit(rest[0]))
    ensures ScanInt("-" + (NatText(n) + rest)) == Some(0 - n)
  {
    var digits := NatText(n);
    NatTextValue(n);
    DigitPrefixOf(digits, rest);
    assert ("-" + (digits + rest))[1..] == digits + rest;
  }

  lemma IntForms(scan: FloatScan, val: string, n: int)
    requires ScanInt(val) == Some(n) && '.' !in val && val != "" && Solid(val[0]) && val[0] != '"'
    requires Trim(val, SPACE) == val
    ensures ParseValue(scan, val) == JInt(n)
  {
  }

  /** Text that begins with a 64-bit number and has no point is that number, whatever follows. */
  lemma NumberThenText(scan: FloatScan, n: nat, rest: string)
    requires n < 0x8000_0000_0000_0000 && '.' !in rest && Core(rest, SPACE) && (rest == "" || !IsDigit(rest[0]))
    ensures ParseValue(scan, NatText(n) + rest) == JInt(n)
  {
    var val := NatText(n) + rest;
    NatThenRest(n, rest);
    DigitsThenRest(NatText(n), rest);
    CoreTrims(val);
    IntForms(scan, val, n);
  }

  lemma DigitsThenRest(digits: string, rest: string)
    requires digits != "" && (forall i :: 0 <= i < |digits| ==> IsDigit(digits[i])) && '.' !in rest && Core(rest, SPACE)
    ensures var val := digits + rest;
            val != "" && IsDigit(val[0]) && Core(val, SPACE) && '.' !in val
  {
    var val := digits + rest;
    assert val[0] == digits[0];
    assert val[|val| - 1] == if rest == "" then digits[|digits| - 1] else rest[|rest| - 1];
  }

  lemma CoreTrims(s: string)
    requires Core(s, SPACE)
    ensures Trim(s, SPACE) == s
  {
    TrimWrap("", s, "", SPACE);
    assert "" + s + "" == s;
  }

  lemma WideScan(n: nat)
    requires n >= 0x8000_0000_0000_0000
    ensures ScanInt(NatText(n)) == None
  {
    NatTextValue(n);
    DigitPrefixAll(NatText(n));
    assert IsDigit(NatText(n)[0]);
  }

  lemma NoPoint(n: nat)
    ensures '.' !in NatText(n) && Core(NatText(n), SPACE)
  {
    assert IsDigit(NatText(n)[0]) && IsDigit(NatText(n)[|NatText(n)| - 1]);
  }

  /** A number of more than 64 bits is taken for plain text. */
  lemma WideNumberIsText(scan: FloatScan, n: nat)
    requires n >= 0x8000_0000_0000_0000
    ensures ParseValue(scan, NatText(n)) == JString(NatText(n))
  {
    WideScan(n);
    NoPoint(n);
    CoreTrims(NatText(n));
    WideForm(scan, NatText(n));
  }

  lemma WideForm(scan: FloatScan, val: string)
    requires val != "" && IsDigit(val[0]) && '.' !in val && ScanInt(val) == None && Trim(val, SPACE) == val
    ensures ParseValue(scan, val) == JString(val)
  {
  }

  /** Text with a point that the library scans is a float. */
  lemma FloatParses(scan: FloatScan, text: string, val: string)
    requires val == Trim(text, SPACE) && '.' in val && val[0] != '"' && scan(val).Some?
    ensures ParseValue(scan, text) == JFloat(scan(val).value)
  {
  }

  /** Any other text that is not quoted and does not begin with a digit, sign or bracket is kept, trimmed. */
  lemma OtherTextIsKept(scan: FloatScan, text: string, val: string)
    requires val == Trim(text, SPACE) && val !in ["true", "false", "null"]
    requires val == "" || (val[0] !in {'"', '[', '-', '+'} && !IsDigit(val[0]) && ('.' in val ==> scan(val).None?))
    ensures ParseValue(scan, text) == JString(val)
  {
  }
}
