/** Reading the Content-Length of a message (src/headers.rs): many lines, each with many values, are
    fine as long as they agree (section 3.3.2 of RFC 7230). */
module ContentLength {
  import opened Bytes
  import opened Length

  const COMMA: byte := 44
  const SPACE: byte := 32
  const TAB: byte := 9
  const ZERO_DIGIT: byte := 48

  // ----- numbers -----

  predicate IsDigit(b: byte) {
    48 <= b <= 57
  }

  ghost predicate AllDigits(s: seq<byte>) {
    forall i :: 0 <= i < |s| ==> 48 <= s[i] <= 57
  }

  /** The value of a string of digits, however large. */
  ghost function Value(s: seq<byte>): nat
    requires AllDigits(s)
  {
    if s == [] then 0 else 10 * Value(s[..|s| - 1]) + (s[|s| - 1] as nat - 48)
  }

  ghost predicate Denotes(s: seq<byte>, n: nat) {
    s != [] && AllDigits(s) && Value(s) == n && n < U64
  }

  lemma {:induction false} ValueGrows(s: seq<byte>, i: nat)
    requires AllDigits(s) && i <= |s|
    ensures Value(s[..i]) <= Value(s)
    decreases |s| - i
  {
    if i == |s| {
      assert s[..i] == s;
    } else {
      ValueGrows(s, i + 1);
      assert s[..i + 1][..i] == s[..i];
    }
  }

  /** `from_digits`: the number, unless there is something else in it or it does not fit. */
  method FromDigits(bytes: seq<byte>) returns (r: Option<u64>)
    ensures r.Some? ==> Denotes(bytes, r.value)
    ensures r.None? ==> forall n :: !Denotes(bytes, n)
  {
    if bytes == [] {
      return None;
    }
    var result: nat := 0;
    for i := 0 to |bytes|
      invariant AllDigits(bytes[..i]) && result == Value(bytes[..i]) && result < U64
    {
      var b := bytes[i];
      if !IsDigit(b) {
        return None;
      }
      assert bytes[..i + 1][..i] == bytes[..i];
      if AllDigits(bytes) {
        ValueGrows(bytes, i + 1);
      }
      if result * 10 >= U64 {
        return None;
      }
      result := result * 10;
      if result + (b - 48) >= U64 {
        return None;
      }
      result := result + (b - 48);
    }
    assert bytes[..|bytes|] == bytes;
    return Some(result);
  }

  // ----- lines -----

  /** `HeaderValue::to_str` succeeds. */
  predicate IsText(line: seq<byte>) {
    forall i :: 0 <= i < |line| ==> 32 <= line[i] < 127 || line[i] == TAB
  }

  /** Tokens with commas between them. */
  function Join(tokens: seq<seq<byte>>): seq<byte>
    requires tokens != []
  {
    if |tokens| == 1 then tokens[0] else tokens[0] + [COMMA] + Join(tokens[1..])
  }

  function Split(line: seq<byte>): (r: seq<seq<byte>>)
    ensures r != []
  {
    if line == [] then [[]]
    else
      var rest := Split(line[1..]);
      if line[0] == COMMA then [[]] + rest else [[line[0]] + rest[0]] + rest[1..]
  }

  /** The tokens of a line are what commas separate in it: nothing else is added or lost, ... */
  lemma {:induction false} SplitThenJoin(line: seq<byte>)
    ensures Join(Split(line)) == line
    decreases |line|
  {
    if line != [] {
      SplitThenJoin(line[1..]);
      var rest := Split(line[1..]);
      assert line == [line[0]] + line[1..];
      if line[0] == COMMA {
        JoinCons([], rest);
        assert [] + [COMMA] + Join(rest) == line;
      } else {
        JoinFirst(line[0], rest);
      }
    }
  }

  lemma JoinCons(token: seq<byte>, rest: seq<seq<byte>>)
    requires rest != []
    ensures Join([token] + rest) == token + [COMMA] + Join(rest)
  {
    assert ([token] + rest)[1..] == rest;
  }

  lemma JoinFirst(b: byte, rest: seq<seq<byte>>)
    requires rest != []
    ensures Join([[b] + rest[0]] + rest[1..]) == [b] + Join(rest)
  {
    var r := [[b] + rest[0]] + rest[1..];
    assert r[1..] == rest[1..];
    if |rest| > 1 {
      assert ([b] + rest[0]) + [COMMA] + Join(rest[1..]) == [b] + (rest[0] + [COMMA] + Join(rest[1..]));
    }
  }

  /** ... and no token has a comma in it. */
  lemma {:induction false} NoCommas(line: seq<byte>, i: nat)
    requires i < |Split(line)|
    ensures COMMA !in Split(line)[i]
    decreases |line|
  {
    if line != [] {
      if line[0] != COMMA {
        NoCommas(line[1..], i);
      } else if i > 0 {
        NoCommas(line[1..], i - 1);
      }
    }
  }

  predicate IsBlank(b: byte) {
    b == SPACE || b == TAB
  }

  /** `trim`: in a line of text, blanks are spaces and tabs. */
  function Trim(s: seq<byte>): (r: seq<byte>)
    decreases |s|
  {
    if s == [] then []
    else if IsBlank(s[0]) then Trim(s[1..])
    else if IsBlank(s[|s| - 1]) then Trim(s[..|s| - 1])
    else s
  }

  /** Exactly the blanks around a string go. */
  lemma {:induction false} TrimRemovesBlanks(s: seq<byte>) returns (i: nat, j: nat)
    ensures i <= j <= |s| && Trim(s) == s[i..j]
    ensures forall k :: 0 <= k < i || j <= k < |s| ==> s[k] == 32 || s[k] == 9
    ensures i < j ==> s[i] !in {32, 9} && s[j - 1] !in {32, 9}
    decreases |s|
  {
    if s == [] {
      return 0, 0;
    } else if IsBlank(s[0]) {
      i, j := TrimRemovesBlanks(s[1..]);
      i, j := i + 1, j + 1;
      assert forall k :: 1 <= k < |s| ==> s[k] == s[1..][k - 1];
    } else if IsBlank(s[|s| - 1]) {
      i, j := TrimRemovesBlanks(s[..|s| - 1]);
    } else {
      return 0, |s|;
    }
  }

  ghost predicate LineDeclares(line: seq<byte>, n: nat) {
    (forall i :: 0 <= i < |line| ==> 32 <= line[i] < 127 || line[i] == 9) && forall t :: t in Split(line) ==> Denotes(Trim(t), n)
  }

  /** Every value on every line is a number, and the number is `n`. */
  ghost predicate Declares(values: seq<seq<byte>>, n: nat) {
    values != [] && forall v :: v in values ==> LineDeclares(v, n)
  }

  /** `content_length_parse_all_values`. */
  method ParseAllValues(values: seq<seq<byte>>) returns (r: Option<u64>)
    ensures r.Some? ==> Declares(values, r.value)
    ensures r.None? ==> forall n :: !Declares(values, n)
  {
    var contentLength: Option<u64> := None;
    for i := 0 to |values|
      invariant contentLength.None? <==> i == 0
      invariant contentLength.Some? ==> forall j :: 0 <= j < i ==> LineDeclares(values[j], contentLength.value)
      invariant contentLength.Some? ==> forall n :: Declares(values, n) ==> n == contentLength.value
    {
      var line := values[i];
      assert line in values;
      if !IsText(line) {
        assert forall n :: !LineDeclares(line, n);
        return None;
      }
      var tokens := Split(line);
      ghost var before := contentLength;
      for k := 0 to |tokens|
        invariant contentLength.None? ==> i == 0 && k == 0
        invariant contentLength.Some? ==> forall j :: 0 <= j < k ==> Denotes(Trim(tokens[j]), contentLength.value)
        invariant contentLength.Some? ==> forall n :: Declares(values, n) ==> n == contentLength.value
        invariant before.Some? ==> contentLength == before
      {
        ghost var token := tokens[k];
        assert token in Split(line);
        assert forall n :: Declares(values, n) ==> LineDeclares(line, n) && Denotes(Trim(token), n);
        var number := FromDigits(Trim(tokens[k]));
        if number.Some? {
          if contentLength.None? {
            contentLength := number;
          } else if contentLength != number {
            return None;
          }
        } else {
          return None;
        }
      }
      assert LineDeclares(line, contentLength.value);
    }
    return contentLength;
  }

  // ----- what does not matter -----

  /** The order of the lines does not matter. */
  lemma Reordered(values: seq<seq<byte>>, other: seq<seq<byte>>, n: nat)
    requires multiset(values) == multiset(other)
    ensures Declares(values, n) <==> Declares(other, n)
  {
    assert forall v :: v in values <==> v in multiset(values);
    assert forall v :: v in other <==> v in multiset(other);
    assert |values| == |multiset(values)| && |other| == |multiset(other)|;
  }

  lemma {:induction false} SplitJoined(a: seq<byte>, b: seq<byte>)
    ensures Split(a + [COMMA] + b) == Split(a) + Split(b)
    decreases |a|
  {
    var all := a + [COMMA] + b;
    if a == [] {
      assert all[1..] == b;
    } else {
      assert all[1..] == a[1..] + [COMMA] + b;
      SplitJoined(a[1..], b);
    }
  }

  lemma LineJoined(a: seq<byte>, b: seq<byte>, n: nat)
    ensures LineDeclares(a + [COMMA] + b, n) <==> LineDeclares(a, n) && LineDeclares(b, n)
  {
    SplitJoined(a, b);
    var all := a + [COMMA] + b;
    assert IsText(all) <==> IsText(a) && IsText(b) by {
      if IsText(all) {
        assert forall i :: 0 <= i < |a| ==> a[i] == all[i];
        assert forall i :: 0 <= i < |b| ==> b[i] == all[|a| + 1 + i];
      }
    }
  }

  /** Two lines mean the same as one with a comma between. */
  lemma Joined(pre: seq<seq<byte>>, a: seq<byte>, b: seq<byte>, post: seq<seq<byte>>, n: nat)
    ensures Declares(pre + [a, b] + post, n) <==> Declares(pre + [a + [COMMA] + b] + post, n)
  {
    LineJoined(a, b, n);
    var two, one := pre + [a, b] + post, pre + [a + [COMMA] + b] + post;
    assert forall v :: v in two <==> v in pre || v == a || v == b || v in post;
    assert forall v :: v in one <==> v in pre || v == a + [COMMA] + b || v in post;
  }

  /** So the result is the same for any order of the lines, joined or not. */
  method SameLength(values: seq<seq<byte>>, other: seq<seq<byte>>) returns (r: Option<u64>, s: Option<u64>)
    requires multiset(values) == multiset(other) || exists pre, a, b, post ::
               values == pre + [a, b] + post && other == pre + [a + [COMMA] + b] + post
    ensures r == s
  {
    r := ParseAllValues(values);
    s := ParseAllValues(other);
    forall n ensures Declares(values, n) <==> Declares(other, n) {
      if multiset(values) == multiset(other) {
        Reordered(values, other, n);
      } else {
        var pre, a, b, post :| values == pre + [a, b] + post && other == pre + [a + [COMMA] + b] + post;
        Joined(pre, a, b, post, n);
      }
    }
    if r.Some? && s.Some? {
      OneLength(values, r.value, s.value);
    }
  }

  lemma OneLength(values: seq<seq<byte>>, m: nat, n: nat)
    requires Declares(values, m) && Declares(values, n)
    ensures m == n
  {
    assert LineDeclares(values[0], m) && LineDeclares(values[0], n);
    var t := Split(values[0])[0];
    assert t in Split(values[0]) && Denotes(Trim(t), m) && Denotes(Trim(t), n);
  }
}
