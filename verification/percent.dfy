/** Resource paths and the ids a collection handler extracts from them. A path
    is split on `/` and each segment is percent-decoded as section 2.1 of
    RFC 3986 describes: `%` and two hexadecimal digits (either case) stand for
    the character with that code. A `+` is an ordinary character here, not a
    space, because this is a path and not a form body. */
module PercentCoding {
  import opened Wrappers
  import JsonPointer

  datatype DecodeError = MalformedEscape(at: nat)

  /** The value of a hexadecimal digit, in either case. */
  function HexValue(c: char): (r: Option<nat>)
    ensures r.Some? ==> r.value < 16
  {
    if '0' <= c <= '9' then Some(c as nat - '0' as nat)
    else if 'a' <= c <= 'f' then Some(c as nat - 'a' as nat + 10)
    else if 'A' <= c <= 'F' then Some(c as nat - 'A' as nat + 10)
    else None
  }

  /** The upper-case hexadecimal digit for a value below 16. */
  function HexDigit(n: nat): (c: char)
    requires n < 16
    ensures HexValue(c) == Some(n)
  {
    if n < 10 then (n + '0' as nat) as char else (n - 10 + 'A' as nat) as char
  }

  /** Percent-decoding of one segment; `offset` only positions the error. */
  function DecodeFrom(s: string, offset: nat): (r: Result<string, DecodeError>)
    ensures r.Err? ==> offset <= r.error.at < offset + |s|
    ensures r.Ok? ==> |r.value| <= |s|
    decreases |s|
  {
    if |s| == 0 then Ok("")
    else if s[0] != '%' then
      match DecodeFrom(s[1..], offset + 1)
      case Err(e) => Err(e)
      case Ok(rest) => Ok([s[0]] + rest)
    else if |s| < 3 || HexValue(s[1]).None? || HexValue(s[2]).None? then Err(MalformedEscape(offset))
    else
      match DecodeFrom(s[3..], offset + 3)
      case Err(e) => Err(e)
      case Ok(rest) => Ok([(HexValue(s[1]).value * 16 + HexValue(s[2]).value) as char] + rest)
  }

  function Decode(s: string): (r: Result<string, DecodeError>)
    ensures r.Err? ==> r.error.at < |s| && s[r.error.at] == '%'
  {
    DecodeErrorAtPercent(s, 0);
    DecodeFrom(s, 0)
  }

  lemma {:induction false} DecodeErrorAtPercent(s: string, offset: nat)
    ensures DecodeFrom(s, offset).Err? ==>
      var at := DecodeFrom(s, offset).error.at;
      offset <= at < offset + |s| && s[at - offset] == '%'
    decreases |s|
  {
    if |s| == 0 {
    } else if s[0] != '%' {
      DecodeErrorAtPercent(s[1..], offset + 1);
    } else if !(|s| < 3 || HexValue(s[1]).None? || HexValue(s[2]).None?) {
      DecodeErrorAtPercent(s[3..], offset + 3);
    }
  }

  /** Characters that stand for themselves in a path segment: the unreserved
      set of section 2.3 of RFC 3986, plus everything beyond one byte (which the
      model leaves as it is). */
  predicate Unreserved(c: char)
  {
    ('a' <= c <= 'z') || ('A' <= c <= 'Z') || ('0' <= c <= '9')
    || c == '-' || c == '.' || c == '_' || c == '~' || c as int >= 256
  }

  /** Percent-encoding of a segment: every other character becomes `%XX`. */
  function Encode(s: string): (e: string)
    ensures '/' !in e
    ensures |e| >= |s|
  {
    if |s| == 0 then ""
    else if Unreserved(s[0]) then [s[0]] + Encode(s[1..])
    else ['%', HexDigit(s[0] as nat / 16), HexDigit(s[0] as nat % 16)] + Encode(s[1..])
  }

  /** Decoding undoes encoding, for every segment. */
  lemma {:induction false} DecodeEncode(s: string, offset: nat)
    ensures DecodeFrom(Encode(s), offset) == Ok(s)
    decreases |s|
  {
    if |s| > 0 {
      var e := Encode(s);
      if Unreserved(s[0]) {
        DecodeEncode(s[1..], offset + 1);
        assert e[0] == s[0] && e[1..] == Encode(s[1..]);
      } else {
        DecodeEncode(s[1..], offset + 3);
        EscapeDecodes(s[0], Encode(s[1..]), offset);
      }
      assert s == [s[0]] + s[1..];
    }
  }

  /** The escape written for one character decodes to that character. */
  lemma EscapeDecodes(c: char, rest: string, offset: nat)
    requires !Unreserved(c)
    ensures var e := ['%', HexDigit(c as nat / 16), HexDigit(c as nat % 16)] + rest;
      DecodeFrom(e, offset) == (match DecodeFrom(rest, offset + 3) case Err(x) => Err(x) case Ok(r) => Ok([c] + r))
  {
    var e := ['%', HexDigit(c as nat / 16), HexDigit(c as nat % 16)] + rest;
    assert e[0] == '%' && e[3..] == rest;
    assert HexValue(e[1]) == Some(c as nat / 16) && HexValue(e[2]) == Some(c as nat % 16);
    DivModValue(c as nat);
  }

  lemma DivModValue(n: nat)
    ensures n / 16 * 16 + n % 16 == n
  {
  }

  /** Text without `%` decodes to itself: in particular `+` and a space stay. */
  lemma {:induction false} DecodeWithoutPercent(s: string, offset: nat)
    requires '%' !in s
    ensures DecodeFrom(s, offset) == Ok(s)
    decreases |s|
  {
    if |s| > 0 {
      DecodeWithoutPercent(s[1..], offset + 1);
      assert s == [s[0]] + s[1..];
    }
  }

  /** The path without one leading and one trailing `/`. */
  function Trim(path: string): (t: string)
    ensures |t| <= |path|
  {
    var a := if |path| > 0 && path[0] == '/' then path[1..] else path;
    if |a| > 0 && a[|a| - 1] == '/' then a[..|a| - 1] else a
  }

  function DecodeAll(segments: seq<string>): (r: Result<seq<string>, DecodeError>)
    ensures r.Ok? ==> |r.value| == |segments|
    ensures r.Ok? ==> forall i :: 0 <= i < |segments| ==> DecodeFrom(segments[i], 0) == Ok(r.value[i])
    ensures r.Err? <==> exists i :: 0 <= i < |segments| && DecodeFrom(segments[i], 0).Err?
  {
    if |segments| == 0 then Ok([])
    else
      match DecodeFrom(segments[0], 0)
      case Err(e) => Err(e)
      case Ok(first) =>
        var rest := DecodeAll(segments[1..]);
        assert forall i :: 1 <= i < |segments| ==> segments[i] == segments[1..][i - 1];
        match rest
        case Err(e) => Err(e)
        case Ok(tail) => Ok([first] + tail)
  }

  /** The decoded segments of a resource path; the empty path has none. */
  function ParsePath(path: string): (r: Result<seq<string>, DecodeError>)
    ensures Trim(path) == "" ==> r == Ok([])
  {
    var t := Trim(path);
    if t == "" then Ok([]) else DecodeAll(JsonPointer.Split(t))
  }

  /** A path of one segment, with neither `/` nor a malformed escape in it,
      parses to its decoded value alone: an encoded `%2f` becomes part of the
      id instead of separating segments. */
  lemma SingleSegment(segment: string, decoded: string)
    requires segment != "" && '/' !in segment
    requires DecodeFrom(segment, 0) == Ok(decoded)
    ensures ParsePath(segment) == Ok([decoded])
  {
    assert Trim(segment) == segment;
    JsonPointer.SplitNoSeparator(segment);
    assert DecodeAll([segment]) == Ok([decoded] + []);
    assert [decoded] + [] == [decoded];
  }

  /** The collection handler's routing: no segment addresses the collection,
      one segment addresses the instance with that decoded id and nothing left
      over, and a longer path has no route. */
  datatype CollectionTarget = WholeCollection | Instance(id: string, remaining: seq<string>)

  datatype PathError = BadEscape(e: DecodeError) | NoRoute(segments: seq<string>)

  function CollectionRoute(path: string): (r: Result<CollectionTarget, PathError>)
    ensures r.Ok? && r.value.Instance? ==> ParsePath(path) == Ok([r.value.id]) && r.value.remaining == []
    ensures r.Ok? && r.value.WholeCollection? <==> ParsePath(path) == Ok([])
    ensures r.Err? && r.error.NoRoute? ==> ParsePath(path).Ok? && |ParsePath(path).value| >= 2
    ensures ParsePath(path).Ok? && |ParsePath(path).value| == 1 ==> r == Ok(Instance(ParsePath(path).value[0], []))
    ensures r.Err? && r.error.BadEscape? <==> ParsePath(path).Err?
  {
    match ParsePath(path)
    case Err(e) => Err(BadEscape(e))
    case Ok(segments) =>
      if |segments| == 0 then Ok(WholeCollection)
      else if |segments| == 1 then
        assert segments == [segments[0]];
        Ok(Instance(segments[0], []))
      else Err(NoRoute(segments))
  }

  /** Unescaped ids of the collection read tests pass through as they are. */
  lemma PlainCollectionIds(path: string)
    requires path == "test" || path == "test user"
    ensures CollectionRoute(path) == Ok(Instance(path, []))
  {
    assert '%' !in path && '/' !in path && path != "";
    DecodeWithoutPercent(path, 0);
    SingleSegment(path, path);
  }

  /** An encoded `/` is part of the id, not a separator. */
  lemma EncodedSlashId(path: string)
    requires path == "test%2fuser"
    ensures CollectionRoute(path) == Ok(Instance("test/user", []))
  {
    var before, escape, after := "test", "%2f", "user";
    Pieces(before, escape, after, '/', path, "test/user");
    EscapedId(before, escape, after, '/');
  }

  /** `%20` is a space. */
  lemma EncodedSpaceId(path: string)
    requires path == "test%20user"
    ensures CollectionRoute(path) == Ok(Instance("test user", []))
  {
    var before, escape, after := "test", "%20", "user";
    Pieces(before, escape, after, ' ', path, "test user");
    EscapedId(before, escape, after, ' ');
  }

  /** `+` stays a `+`, next to an encoded one. */
  lemma PlusIsNotSpace(path: string)
    requires path == "test+%2buser"
    ensures CollectionRoute(path) == Ok(Instance("test++user", []))
  {
    var before, escape, after := "test+", "%2b", "user";
    Pieces(before, escape, after, '+', path, "test++user");
    EscapedId(before, escape, after, '+');
  }

  /** The pieces a test id is made of, checked one character at a time. */
  lemma Pieces(before: string, escape: string, after: string, c: char, path: string, id: string)
    requires |path| == |before| + |escape| + |after| && |id| == |before| + 1 + |after|
    requires forall i :: 0 <= i < |before| ==> path[i] == before[i] && id[i] == before[i]
    requires forall i :: 0 <= i < |escape| ==> path[|before| + i] == escape[i]
    requires forall i :: 0 <= i < |after| ==> path[|before| + |escape| + i] == after[i]
    requires id[|before|] == c
    requires forall i :: 0 <= i < |after| ==> id[|before| + 1 + i] == after[i]
    ensures path == before + escape + after
    ensures id == before + [c] + after
  {
  }

  lemma EscapedId(before: string, escape: string, after: string, c: char)
    requires '%' !in before && '%' !in after && '/' !in before && '/' !in after
    requires |escape| == 3 && escape[0] == '%' && '/' !in escape
    requires HexValue(escape[1]).Some? && HexValue(escape[2]).Some?
    requires (HexValue(escape[1]).value * 16 + HexValue(escape[2]).value) as char == c
    ensures CollectionRoute(before + escape + after) == Ok(Instance(before + [c] + after, []))
  {
    DecodeExample(before, escape, after, c);
    SingleSegment(before + escape + after, before + [c] + after);
  }

  lemma DecodeExample(before: string, escape: string, after: string, c: char)
    requires '%' !in before && '%' !in after
    requires |escape| == 3 && escape[0] == '%'
    requires HexValue(escape[1]).Some? && HexValue(escape[2]).Some?
    requires (HexValue(escape[1]).value * 16 + HexValue(escape[2]).value) as char == c
    ensures DecodeFrom(before + escape + after, 0) == Ok(before + [c] + after)
  {
    DecodePlain(before, escape + after, 0);
    var s := escape + after;
    DecodeWithoutPercent(after, |before| + 3);
    assert s[3..] == after;
    assert (before + escape) + after == before + s;
    assert (before + [c]) + after == before + ([c] + after);
  }

  /** Text without `%` is copied through in front of whatever follows. */
  lemma {:induction false} DecodePlain(before: string, s: string, offset: nat)
    requires '%' !in before
    ensures DecodeFrom(before + s, offset)
         == (match DecodeFrom(s, offset + |before|)
             case Err(e) => Err(e)
             case Ok(rest) => Ok(before + rest))
    decreases |before|
  {
    if |before| > 0 {
      DecodePlain(before[1..], s, offset + 1);
      assert (before + s)[0] == before[0] && (before + s)[1..] == before[1..] + s;
      assert before[0] != '%';
      match DecodeFrom(s, offset + |before|)
      case Err(_) =>
      case Ok(rest) => assert [before[0]] + (before[1..] + rest) == before + rest;
    } else {
      assert before + s == s;
      match DecodeFrom(s, offset)
      case Err(_) =>
      case Ok(rest) => assert before + rest == rest;
    }
  }
}
