/** The two JavaScript string operations the schema relies on: `trim` and `length`. */
module JsString {

  /**
   * The code points `String.prototype.trim` removes: ECMAScript WhiteSpace
   * (tab, vertical tab, form feed, space, no-break space, byte order mark and
   * the Unicode space separators) and LineTerminator.
   */
  predicate IsSpace(c: char) {
    var u := c as int;
    u == 0x09 || u == 0x0A || u == 0x0B || u == 0x0C || u == 0x0D || u == 0x20
    || u == 0xA0 || u == 0x1680 || (0x2000 <= u <= 0x200A) || u == 0x2028
    || u == 0x2029 || u == 0x202F || u == 0x205F || u == 0x3000 || u == 0xFEFF
  }

  /** Drops leading whitespace: the result is a suffix of `s` and all that was dropped is space. */
  function TrimStart(s: string): (r: string)
    ensures |r| <= |s| && r == s[|s| - |r|..]
    ensures |r| > 0 ==> !IsSpace(r[0])
    ensures forall i :: 0 <= i < |s| - |r| ==> IsSpace(s[i])
  {
    if |s| > 0 && IsSpace(s[0]) then TrimStart(s[1..]) else s
  }

  /** Drops trailing whitespace: the result is a prefix of `s` and all that was dropped is space. */
  function TrimEnd(s: string): (r: string)
    ensures |r| <= |s| && r == s[..|r|]
    ensures |r| > 0 ==> !IsSpace(r[|r| - 1])
    ensures forall i :: |r| <= i < |s| ==> IsSpace(s[i])
  {
    if |s| > 0 && IsSpace(s[|s| - 1]) then TrimEnd(s[..|s| - 1]) else s
  }

  /**
   * `s.trim()`: the infix of `s` left after dropping whitespace at both ends;
   * it neither starts nor ends with whitespace.
   */
  function Trim(s: string): (r: string)
    ensures var a := |s| - |TrimStart(s)|;
      && a + |r| <= |s|
      && (forall j :: 0 <= j < |r| ==> r[j] == s[a + j])
      && (forall i :: 0 <= i < a ==> IsSpace(s[i]))
      && (forall i :: a + |r| <= i < |s| ==> IsSpace(s[i]))
    ensures |r| > 0 ==> !IsSpace(r[0]) && !IsSpace(r[|r| - 1])
  {
    var t := TrimStart(s);
    var r := TrimEnd(t);
    TrimInfix(s, t, r);
    r
  }

  /** A prefix `r` of a suffix `t` of `s` is an infix of `s`; what `r` leaves of `t` ends `s`. */
  lemma TrimInfix(s: string, t: string, r: string)
    requires |t| <= |s| && t == s[|s| - |t|..]
    requires |r| <= |t| && r == t[..|r|]
    requires forall i :: |r| <= i < |t| ==> IsSpace(t[i])
    requires |t| > 0 ==> !IsSpace(t[0])
    ensures var a := |s| - |t|;
      && a + |r| <= |s|
      && (forall j :: 0 <= j < |r| ==> r[j] == s[a + j])
      && (forall i :: a + |r| <= i < |s| ==> IsSpace(s[i]))
    ensures |r| > 0 ==> !IsSpace(r[0])
  {
    var a := |s| - |t|;
    forall j | 0 <= j < |r| ensures r[j] == s[a + j] {
      assert r[j] == t[j];
    }
    forall i | a + |r| <= i < |s| ensures IsSpace(s[i]) {
      assert s[i] == t[i - a];
    }
    if |r| > 0 {
      assert r[0] == t[0];
    }
  }

  /** Trimming a trimmed string changes nothing, so a stored (already trimmed) name is a fixed point. */
  lemma {:induction false} TrimIdempotent(s: string)
    ensures Trim(Trim(s)) == Trim(s)
  {
    var t := Trim(s);
    assert TrimStart(t) == t;
    assert TrimEnd(t) == t;
  }

  /** Whitespace at neither end: what `trim` leaves. */
  predicate Trimmed(s: string) {
    s == [] || (!IsSpace(s[0]) && !IsSpace(s[|s| - 1]))
  }

  /** `trim` leaves a string unchanged exactly when it is already trimmed. */
  lemma TrimFixesExactlyTrimmed(s: string)
    ensures Trimmed(Trim(s))
    ensures Trim(s) == s <==> Trimmed(s)
  {
    if Trimmed(s) {
      assert TrimStart(s) == s;
      assert TrimEnd(s) == s;
    }
  }

  /** A string is blank exactly when trimming leaves nothing. */
  lemma TrimEmptyIffBlank(s: string)
    ensures Trim(s) == [] <==> forall i :: 0 <= i < |s| ==> IsSpace(s[i])
  {
    var a := TrimStart(s);
    if Trim(s) != [] {
      var r := Trim(s);
      var k := |s| - |a|;
      assert s[k] == r[0];
    }
  }

  /**
   * `s.length` in JavaScript: UTF-16 code units, so a code point above U+FFFF
   * counts twice.
   */
  function Utf16Length(s: string): (n: nat)
    ensures |s| <= n <= 2 * |s|
    ensures (forall i :: 0 <= i < |s| ==> s[i] as int <= 0xFFFF) ==> n == |s|
  {
    if s == [] then 0 else (if s[0] as int > 0xFFFF then 2 else 1) + Utf16Length(s[1..])
  }

  /** Lengths add up over concatenation. */
  lemma {:induction false} Utf16LengthAdds(a: string, b: string)
    ensures Utf16Length(a + b) == Utf16Length(a) + Utf16Length(b)
    decreases |a|
  {
    if a == [] {
      assert a + b == b;
    } else {
      assert (a + b)[0] == a[0] && (a + b)[1..] == a[1..] + b;
      Utf16LengthAdds(a[1..], b);
    }
  }

  /** One code unit per character, plus one more for each character above U+FFFF. */
  lemma {:induction false} Utf16LengthCountsAstral(s: string)
    ensures Utf16Length(s) == |s| + |set i | 0 <= i < |s| && s[i] as int > 0xFFFF|
    decreases |s|
  {
    if s != [] {
      var n := |s| - 1;
      var p := s[..n];
      assert p + [s[n]] == s;
      Utf16LengthCountsAstral(p);
      Utf16LengthAdds(p, [s[n]]);
      var all := set i | 0 <= i < |s| && s[i] as int > 0xFFFF;
      var front := set i | 0 <= i < |p| && p[i] as int > 0xFFFF;
      assert all == front + (if s[n] as int > 0xFFFF then {n} else {});
    }
  }
}
