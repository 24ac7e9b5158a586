/** The province key the views join on: the name with every administrative
    token of `/省|自治区|维吾尔|回族|壮族|特别行政区/g` removed in one left-to-right
    pass (`String.prototype.replace` with the global flag), then, for the map
    views, `trim()`med. */
module ProvinceName {
  import opened Collections

  /** The alternatives of the pattern, in the order the regular expression tries them. */
  const Tokens: seq<string> := ["省", "自治区", "维吾尔", "回族", "壮族", "特别行政区"]

  /** Length of the alternative that matches at the start of s, or 0 when none does.
      No alternative is a prefix of another, so the order of trial does not matter. */
  function MatchLength(s: string): (n: nat)
    ensures n <= |s|
    ensures n > 0 ==> s[..n] in Tokens
  {
    if |s| >= 1 && s[0] == '省' then
      assert s[..1] == Tokens[0]; 1
    else if |s| >= 3 && s[0] == '自' && s[1] == '治' && s[2] == '区' then
      assert s[..3] == Tokens[1]; 3
    else if |s| >= 3 && s[0] == '维' && s[1] == '吾' && s[2] == '尔' then
      assert s[..3] == Tokens[2]; 3
    else if |s| >= 2 && s[0] == '回' && s[1] == '族' then
      assert s[..2] == Tokens[3]; 2
    else if |s| >= 2 && s[0] == '壮' && s[1] == '族' then
      assert s[..2] == Tokens[4]; 2
    else if |s| >= 5 && s[0] == '特' && s[1] == '别' && s[2] == '行' && s[3] == '政' && s[4] == '区' then
      assert s[..5] == Tokens[5]; 5
    else 0
  }

  /** Whenever an alternative stands at the front of s, it is the one matched. */
  lemma MatchLengthComplete(s: string)
    ensures forall t :: t in Tokens && |t| <= |s| && s[..|t|] == t ==> MatchLength(s) == |t|
  {
    forall t | t in Tokens && |t| <= |s| && s[..|t|] == t
      ensures MatchLength(s) == |t|
    {
      var i :| 0 <= i < |Tokens| && Tokens[i] == t;
      assert s[0] == t[0];
      assert |t| >= 2 ==> s[1] == t[1];
      assert |t| >= 3 ==> s[2] == t[2];
      assert |t| >= 5 ==> s[3] == t[3] && s[4] == t[4];
    }
  }

  /** `name.replace(/省|自治区|维吾尔|回族|壮族|特别行政区/g, '')`: scan from the left;
      where an alternative matches, drop it and resume after it; elsewhere keep
      the character and move on by one. */
  function Strip(s: string): (r: string)
    ensures |r| <= |s|
    decreases |s|
  {
    if |s| == 0 then ""
    else
      var n := MatchLength(s);
      if n > 0 then Strip(s[n..]) else [s[0]] + Strip(s[1..])
  }

  /** a can be obtained from b by deleting characters. */
  predicate IsSubsequence(a: string, b: string)
    decreases |b|
  {
    a == [] || (b != [] && ((a[0] == b[0] && IsSubsequence(a[1..], b[1..])) || IsSubsequence(a, b[1..])))
  }

  lemma {:induction false} SubsequenceOfSuffix(a: string, b: string, n: nat)
    requires n <= |b|
    requires IsSubsequence(a, b[n..])
    ensures IsSubsequence(a, b)
    decreases n
  {
    if n > 0 {
      assert b[n - 1..][1..] == b[n..];
      SubsequenceOfSuffix(a, b, n - 1);
    }
  }

  /** Stripping only deletes: the key is the name with some characters removed. */
  lemma {:induction false} StripIsSubsequence(s: string)
    ensures IsSubsequence(Strip(s), s)
    decreases |s|
  {
    if |s| > 0 {
      var n := MatchLength(s);
      if n > 0 {
        StripIsSubsequence(s[n..]);
        SubsequenceOfSuffix(Strip(s[n..]), s, n);
      } else {
        StripIsSubsequence(s[1..]);
        var r := [s[0]] + Strip(s[1..]);
        assert r[1..] == Strip(s[1..]);
      }
    }
  }

  /** No alternative of the pattern starts at any position of s. */
  predicate NoToken(s: string)
  {
    forall i :: 0 <= i < |s| ==> MatchLength(s[i..]) == 0
  }

  /** A name is left unchanged exactly when no token occurs in it. */
  lemma {:induction false} StripFixedIff(s: string)
    ensures Strip(s) == s <==> NoToken(s)
    decreases |s|
  {
    if |s| > 0 {
      var n := MatchLength(s);
      assert forall i :: 1 <= i < |s| ==> s[i..] == s[1..][i - 1..];
      StripFixedIff(s[1..]);
      if n > 0 {
        assert |Strip(s)| <= |s| - n;
        assert !NoToken(s) by { assert s[0..] == s; }
      } else {
        assert Strip(s) == [s[0]] + Strip(s[1..]);
        if Strip(s) == s {
          assert Strip(s[1..]) == s[1..] by { assert Strip(s)[1..] == Strip(s[1..]); }
          assert s[0..] == s;
        }
        if NoToken(s) {
          assert NoToken(s[1..]);
          assert s == [s[0]] + s[1..];
        }
      }
    }
  }

  /** The characters an alternative can start with. */
  const Initials: set<char> := {'省', '自', '维', '回', '壮', '特'}

  /** No character of s starts an alternative. */
  predicate Plain(s: string)
  {
    forall i :: 0 <= i < |s| ==> s[i] !in Initials
  }

  /** The tokens of ts written one after another. */
  function Concat(ts: seq<string>): string
  {
    if ts == [] then "" else ts[0] + Concat(ts[1..])
  }

  /** A token at the front is dropped and the scan resumes after it. */
  lemma StripDrop(t: string, rest: string)
    requires t in Tokens
    ensures Strip(t + rest) == Strip(rest)
  {
    var s := t + rest;
    assert s[..|t|] == t;
    assert MatchLength(s) == |t|;
    assert s[|t|..] == rest;
  }

  /** A character no alternative starts with is kept. */
  lemma StripKeep(c: char, rest: string)
    requires c !in Initials
    ensures Strip([c] + rest) == [c] + Strip(rest)
  {
    var s := [c] + rest;
    assert s[0] == c;
    assert MatchLength(s) == 0;
    assert s[1..] == rest;
  }

  /** Plain text at the front passes through unchanged. */
  lemma {:induction false} StripPlain(p: string, rest: string)
    requires Plain(p)
    ensures Strip(p + rest) == p + Strip(rest)
    decreases |p|
  {
    if p != [] {
      var tail := p[1..] + rest;
      assert p + rest == [p[0]] + tail;
      StripKeep(p[0], tail);
      StripPlain(p[1..], rest);
      assert [p[0]] + (p[1..] + Strip(rest)) == p + Strip(rest);
    } else {
      assert p + rest == rest && p + Strip(rest) == Strip(rest);
    }
  }

  /** A run of tokens at the front disappears. */
  lemma {:induction false} StripTokens(ts: seq<string>, rest: string)
    requires forall i :: 0 <= i < |ts| ==> ts[i] in Tokens
    ensures Strip(Concat(ts) + rest) == Strip(rest)
    decreases |ts|
  {
    if ts != [] {
      var tail := Concat(ts[1..]) + rest;
      assert Concat(ts) + rest == ts[0] + tail;
      StripDrop(ts[0], tail);
      StripTokens(ts[1..], rest);
    } else {
      assert Concat(ts) + rest == rest;
    }
  }

  /** A short name followed by qualifier tokens reduces to the short name. */
  lemma StripQualified(short: string, ts: seq<string>)
    requires Plain(short)
    requires forall i :: 0 <= i < |ts| ==> ts[i] in Tokens
    ensures Strip(short + Concat(ts)) == short
  {
    StripTokens(ts, "");
    assert Concat(ts) + "" == Concat(ts);
    StripPlain(short, Concat(ts));
    assert Strip("") == "";
  }

  /** Where no alternative matches, the first character is kept. */
  lemma StripUnmatched(s: string)
    requires s != [] && MatchLength(s) == 0
    ensures Strip(s) == [s[0]] + Strip(s[1..])
  {
  }

  /** The pass is not idempotent: removing 省 from 自治省区 joins the letters
      around it into the token 自治区, which a second pass removes. */
  lemma StripNotIdempotent()
    ensures Strip("自治省区") == "自治区"
    ensures Strip("自治区") == ""
  {
    var s := "自治省区";
    StripUnmatched(s);
    assert s[1..] == ['治'] + "省区";
    StripKeep('治', "省区");
    assert "省区" == "省" + "区";
    StripDrop("省", "区");
    assert "区" == ['区'] + "";
    StripKeep('区', "");
    assert "自治区" == "自治区" + "";
    StripDrop("自治区", "");
  }

  /** The names of the provinces with a qualifier reduce to their short names. */
  lemma StripAutonomousRegion()
    ensures Strip("宁夏" + "回族" + "自治区") == "宁夏"
  {
    StripQualified("宁夏", ["回族", "自治区"]);
    assert Concat(["回族", "自治区"]) == "回族" + "自治区";
    assert "宁夏" + "回族" + "自治区" == "宁夏" + ("回族" + "自治区");
  }

  lemma StripSpecialRegion()
    ensures Strip("香港" + "特别行政区") == "香港"
  {
    StripQualified("香港", ["特别行政区"]);
    assert Concat(["特别行政区"]) == "特别行政区";
  }

  lemma StripProvince()
    ensures Strip("广东" + "省") == "广东"
  {
    StripQualified("广东", ["省"]);
    assert Concat(["省"]) == "省";
  }

  /** The characters `String.prototype.trim` removes: white space and line terminators. */
  predicate IsJsWhitespace(c: char)
  {
    c == '\t' || c == '\n' || c == '\U{000B}' || c == '\U{000C}' || c == '\r' || c == ' '
    || c == '\U{00A0}' || c == '\U{1680}' || ('\U{2000}' <= c <= '\U{200A}')
    || c == '\U{2028}' || c == '\U{2029}' || c == '\U{202F}' || c == '\U{205F}'
    || c == '\U{3000}' || c == '\U{FEFF}'
  }

  function TrimStart(s: string): (r: string)
    ensures |r| <= |s| && r == s[|s| - |r|..]
    ensures |r| > 0 ==> !IsJsWhitespace(r[0])
    ensures forall i :: 0 <= i < |s| - |r| ==> IsJsWhitespace(s[i])
  {
    if |s| > 0 && IsJsWhitespace(s[0]) then TrimStart(s[1..]) else s
  }

  function TrimEnd(s: string): (r: string)
    ensures |r| <= |s| && r == s[..|r|]
    ensures |r| > 0 ==> !IsJsWhitespace(r[|r| - 1])
    ensures forall i :: |r| <= i < |s| ==> IsJsWhitespace(s[i])
  {
    if |s| > 0 && IsJsWhitespace(s[|s| - 1]) then TrimEnd(s[..|s| - 1]) else s
  }

  predicate AllWhitespace(t: string)
  {
    forall k :: 0 <= k < |t| ==> IsJsWhitespace(t[k])
  }

  /** `s.trim()`: the slice of s left when the white space at both ends is cut. */
  function Trim(s: string): (r: string)
    ensures exists i :: 0 <= i <= |s| - |r| && s[i..][..|r|] == r
                        && AllWhitespace(s[..i]) && AllWhitespace(s[i..][|r|..])
    ensures |r| > 0 ==> !IsJsWhitespace(r[0]) && !IsJsWhitespace(r[|r| - 1])
  {
    var t := TrimStart(s);
    var r := TrimEnd(t);
    var i := |s| - |t|;
    assert s[i..] == t;
    assert s[i..][..|r|] == r;
    assert AllWhitespace(s[..i]);
    assert AllWhitespace(s[i..][|r|..]);
    r
  }

  /** The key the map views use: stripped, then trimmed. */
  function MapKey(name: string): (k: string)
    ensures |k| <= |name|
    ensures |k| > 0 ==> !IsJsWhitespace(k[0]) && !IsJsWhitespace(k[|k| - 1])
  {
    Trim(Strip(name))
  }
}
