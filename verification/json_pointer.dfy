/** JSON pointers in the string syntax of section 3 of RFC 6901, as the resource
    layer parses them: the text is split on `/`, EMPTY reference tokens are
    dropped (so both "" and "/" denote the whole document), and each remaining
    token is unescaped (`~1` is `/`, `~0` is `~`). */
module JsonPointer {
  import opened Wrappers
  import opened Json

  /** A parsed pointer: its decoded reference tokens, from the root down. */
  type Pointer = seq<string>

  /** Encoding of one reference token (section 3 of RFC 6901). */
  function EscapeToken(t: string): (e: string)
    ensures '/' !in e
    ensures |e| == 0 <==> |t| == 0
  {
    if |t| == 0 then ""
    else (if t[0] == '~' then "~0" else if t[0] == '/' then "~1" else [t[0]]) + EscapeToken(t[1..])
  }

  /** Decoding of one reference token, left to right, which is the same as
      replacing `~1` first and `~0` second (section 4 of RFC 6901). A `~`
      followed by anything else is kept as it is. */
  function UnescapeToken(e: string): (t: string)
    ensures |t| == 0 <==> |e| == 0
    ensures |t| <= |e|
  {
    if |e| == 0 then ""
    else if e[0] == '~' && |e| >= 2 && e[1] == '0' then "~" + UnescapeToken(e[2..])
    else if e[0] == '~' && |e| >= 2 && e[1] == '1' then "/" + UnescapeToken(e[2..])
    else [e[0]] + UnescapeToken(e[1..])
  }

  /** Every token survives encoding: decoding the encoding gives it back. */
  lemma {:induction false} UnescapeEscape(t: string)
    ensures UnescapeToken(EscapeToken(t)) == t
    decreases |t|
  {
    if |t| > 0 {
      var rest := EscapeToken(t[1..]);
      UnescapeEscape(t[1..]);
      var e := EscapeToken(t);
      if t[0] == '~' {
        assert e == "~0" + rest && e[2..] == rest;
      } else if t[0] == '/' {
        assert e == "~1" + rest && e[2..] == rest;
      } else {
        assert e == [t[0]] + rest && e[1..] == rest;
      }
      assert t == [t[0]] + t[1..];
    }
  }

  /** `String.split("/", -1)`: the pieces between separators, empty ones
      included, so a text with n separators has n + 1 pieces. */
  function Split(s: string): (parts: seq<string>)
    ensures |parts| >= 1
    ensures forall i :: 0 <= i < |parts| ==> '/' !in parts[i]
    decreases |s|
  {
    if |s| == 0 then [""]
    else
      var rest := Split(s[1..]);
      if s[0] == '/' then [""] + rest
      else [[s[0]] + rest[0]] + rest[1..]
  }

  /** The pieces put back together with `/` between them. */
  function Join(parts: seq<string>): (s: string)
    requires |parts| >= 1
  {
    if |parts| == 1 then parts[0] else parts[0] + "/" + Join(parts[1..])
  }

  /** Splitting undoes joining pieces that do not contain the separator. */
  lemma {:induction false} SplitJoin(parts: seq<string>)
    requires |parts| >= 1
    requires forall i :: 0 <= i < |parts| ==> '/' !in parts[i]
    ensures Split(Join(parts)) == parts
    decreases |parts|
  {
    if |parts| == 1 {
      SplitNoSeparator(parts[0]);
    } else {
      SplitJoin(parts[1..]);
      SplitPrefix(parts[0], Join(parts[1..]));
    }
  }

  lemma {:induction false} SplitNoSeparator(p: string)
    requires '/' !in p
    ensures Split(p) == [p]
    decreases |p|
  {
    if |p| > 0 {
      SplitNoSeparator(p[1..]);
      assert p == [p[0]] + p[1..];
    }
  }

  /** Splitting `p + "/" + s` gives `p` followed by the pieces of `s`. */
  lemma {:induction false} SplitPrefix(p: string, s: string)
    requires '/' !in p
    ensures Split(p + "/" + s) == [p] + Split(s)
    decreases |p|
  {
    if |p| == 0 {
      assert p + "/" + s == "/" + s;
      assert ("/" + s)[1..] == s;
    } else {
      var whole := p + "/" + s;
      assert whole[0] == p[0] && whole[1..] == p[1..] + "/" + s;
      SplitPrefix(p[1..], s);
      assert [p[0]] + p[1..] == p;
    }
  }

  /** The non-empty pieces, in order. */
  function NonEmpty(parts: seq<string>): (r: seq<string>)
    ensures forall i :: 0 <= i < |r| ==> r[i] != ""
    ensures |r| <= |parts|
  {
    if |parts| == 0 then []
    else if parts[0] == "" then NonEmpty(parts[1..])
    else [parts[0]] + NonEmpty(parts[1..])
  }

  function UnescapeAll(parts: seq<string>): (r: Pointer)
    ensures |r| == |parts|
    ensures forall i :: 0 <= i < |parts| ==> r[i] == UnescapeToken(parts[i])
  {
    if |parts| == 0 then [] else [UnescapeToken(parts[0])] + UnescapeAll(parts[1..])
  }

  /** `new JsonPointer(String)`. */
  function Parse(s: string): (p: Pointer)
    ensures forall i :: 0 <= i < |p| ==> p[i] != ""
  {
    UnescapeAll(NonEmpty(Split(s)))
  }

  /** The pointer's text: each token encoded and preceded by `/`. */
  function Format(p: Pointer): (s: string)
    ensures |p| == 0 <==> |s| == 0
  {
    if |p| == 0 then "" else "/" + EscapeToken(p[0]) + Format(p[1..])
  }

  /** The pieces `Format` produces: an empty first piece and one encoded token
      per step. */
  function Encoded(p: Pointer): (parts: seq<string>)
    ensures |parts| == |p|
    ensures forall i :: 0 <= i < |p| ==> parts[i] == EscapeToken(p[i])
  {
    if |p| == 0 then [] else [EscapeToken(p[0])] + Encoded(p[1..])
  }

  /** Splitting a separator-free piece followed by a formatted pointer gives
      that piece and then one encoded token per step. */
  lemma {:induction false} FormatSplits(h: string, p: Pointer)
    requires '/' !in h
    ensures Split(h + Format(p)) == [h] + Encoded(p)
    decreases |p|
  {
    if |p| == 0 {
      assert h + Format(p) == h;
      SplitNoSeparator(h);
    } else {
      var e := EscapeToken(p[0]);
      var rest := Format(p[1..]);
      assert Format(p) == "/" + e + rest;
      Regroup(h, e, rest);
      SplitPrefix(h, e + rest);
      FormatSplits(e, p[1..]);
      assert Encoded(p) == [e] + Encoded(p[1..]);
    }
  }

  lemma Regroup(h: string, e: string, rest: string)
    ensures h + ("/" + e + rest) == h + "/" + (e + rest)
  {
  }

  /** A pointer whose tokens are all non-empty survives formatting and parsing;
      empty tokens are the one thing the parser cannot give back. */
  lemma {:induction false} ParseFormat(p: Pointer)
    requires forall i :: 0 <= i < |p| ==> p[i] != ""
    ensures Parse(Format(p)) == p
  {
    FormatSplits("", p);
    assert "" + Format(p) == Format(p);
    NonEmptyKeepsEncoded(p);
    UnescapeEncoded(p);
  }

  lemma {:induction false} NonEmptyKeepsEncoded(p: Pointer)
    requires forall i :: 0 <= i < |p| ==> p[i] != ""
    ensures NonEmpty([""] + Encoded(p)) == Encoded(p)
    decreases |p|
  {
    assert ([""] + Encoded(p))[1..] == Encoded(p);
    EncodedHasNoEmpty(p);
  }

  lemma {:induction false} EncodedHasNoEmpty(p: Pointer)
    requires forall i :: 0 <= i < |p| ==> p[i] != ""
    ensures NonEmpty(Encoded(p)) == Encoded(p)
    decreases |p|
  {
    if |p| > 0 {
      EncodedHasNoEmpty(p[1..]);
    }
  }

  lemma {:induction false} UnescapeEncoded(p: Pointer)
    ensures UnescapeAll(Encoded(p)) == p
  {
    forall i | 0 <= i < |p|
      ensures UnescapeAll(Encoded(p))[i] == p[i]
    {
      UnescapeEscape(p[i]);
    }
  }

  /** `JsonPointer.leaf()`: the last token, or none for the root pointer. */
  function Leaf(p: Pointer): (r: Option<string>)
    ensures r.None? <==> |p| == 0
    ensures r.Some? ==> r.value == p[|p| - 1]
  {
    if |p| == 0 then None else Some(p[|p| - 1])
  }

  predicate IsDigit(c: char)
  {
    '0' <= c <= '9'
  }

  function DigitsValue(s: string): nat
    requires forall i :: 0 <= i < |s| ==> IsDigit(s[i])
  {
    if |s| == 0 then 0
    else
      assert IsDigit(s[|s| - 1]);
      DigitsValue(s[..|s| - 1]) * 10 + (s[|s| - 1] as int - '0' as int)
  }

  /** An array index token: decimal digits only. */
  function ParseIndex(t: string): (r: Option<nat>)
    ensures r.Some? <==> |t| > 0 && forall i :: 0 <= i < |t| ==> IsDigit(t[i])
  {
    if |t| > 0 && forall i :: 0 <= i < |t| ==> IsDigit(t[i]) then Some(DigitsValue(t)) else None
  }

  /** The decimal numeral of `n`, without leading zeros. */
  function Decimal(n: nat): (t: string)
    ensures |t| > 0 && forall i :: 0 <= i < |t| ==> IsDigit(t[i])
    ensures |t| > 1 ==> t[0] != '0'
    decreases n
  {
    var d := ['0' + (n % 10) as char];
    if n < 10 then d else Decimal(n / 10) + d
  }

  /** An index token is read as the decimal number it writes. */
  lemma {:induction false} ParseIndexDecimal(n: nat)
    ensures ParseIndex(Decimal(n)) == Some(n)
    decreases n
  {
    var t := Decimal(n);
    var last := '0' + (n % 10) as char;
    assert last as int - '0' as int == n % 10;
    if n < 10 {
      assert t == [last] && t[..0] == [];
      assert DigitsValue(t) == DigitsValue([]) * 10 + n % 10;
    } else {
      ParseIndexDecimal(n / 10);
      assert t == Decimal(n / 10) + [last];
      assert t[..|t| - 1] == Decimal(n / 10) && t[|t| - 1] == last;
      assert DigitsValue(t) == (n / 10) * 10 + n % 10;
    }
  }

  /** The child of an array under the numeral of an index in range is the
      element at that index; any other index has no child. */
  lemma ArrayChildAt(items: seq<Json>, n: nat)
    ensures Child(Arr(items), Decimal(n)) == if n < |items| then Some(items[n]) else None
  {
    ParseIndexDecimal(n);
  }

  /** One step down: an object's member or an array's element. Scalars and
      `null` have no children. */
  function Child(j: Json, token: string): (r: Option<Json>)
    ensures j.Obj? ==> r == Lookup(j.fields, token)
    ensures !j.Obj? && !j.Arr? ==> r.None?
    ensures j.Arr? ==> (r.Some? <==> ParseIndex(token).Some? && ParseIndex(token).value < |j.items|)
    ensures j.Arr? && r.Some? ==> r == Some(j.items[ParseIndex(token).value])
  {
    match j
    case Obj(fields) => Lookup(fields, token)
    case Arr(items) =>
      var index := ParseIndex(token);
      if index.Some? && index.value < |items| then Some(items[index.value]) else None
    case _ => None
  }

  /** `JsonValue.get(JsonPointer)`: the value the pointer addresses, if any. */
  function Get(j: Json, p: Pointer): (r: Option<Json>)
    ensures |p| == 0 ==> r == Some(j)
    decreases |p|
  {
    if |p| == 0 then Some(j)
    else
      match Child(j, p[0])
      case None => None
      case Some(c) => Get(c, p[1..])
  }

  /** Resolving a longer pointer is resolving its first part and then the rest
      from there. */
  lemma {:induction false} GetConcat(j: Json, p: Pointer, q: Pointer)
    ensures Get(j, p + q) == (match Get(j, p) case None => None case Some(c) => Get(c, q))
    decreases |p|
  {
    if |p| == 0 {
      assert p + q == q;
    } else {
      assert (p + q)[0] == p[0] && (p + q)[1..] == p[1..] + q;
      match Child(j, p[0])
      case None =>
      case Some(c) => GetConcat(c, p[1..], q);
    }
  }
}
