/** The JavaScript string operations the popup relies on: `toLowerCase`,
    `includes` and `trim`. */
module JsString {

  /** Lower-cases one character; only the ASCII letters A-Z are mapped. */
  function LowerChar(c: char): char
  {
    if 'A' <= c <= 'Z' then (c as int + 32) as char else c
  }

  /** `s.toLowerCase()`, character by character. */
  function ToLowerCase(s: string): (r: string)
    ensures |r| == |s|
  {
    if s == [] then [] else [LowerChar(s[0])] + ToLowerCase(s[1..])
  }

  /** Lower-casing leaves only the empty string empty, which is why an empty
      search query and an empty lower-cased query are the same test. */
  lemma ToLowerCaseEmpty(s: string)
    ensures ToLowerCase(s) == "" <==> s == ""
  {
  }

  /** `q` occurs in `s` starting at position `i`. */
  ghost predicate OccursAt(s: string, q: string, i: nat)
  {
    i + |q| <= |s| && s[i..i + |q|] == q
  }

  /** `s.includes(q)`: `q` is a prefix of `s` or of one of its suffixes. */
  function Includes(s: string, q: string): bool
  {
    q <= s || (s != [] && Includes(s[1..], q))
  }

  /** `includes` is substring search: it holds exactly when `q` occurs somewhere in `s`. */
  lemma {:induction false} IncludesIffOccurs(s: string, q: string)
    ensures Includes(s, q) <==> exists i: nat :: OccursAt(s, q, i)
  {
    if q <= s {
      assert OccursAt(s, q, 0);
    } else if s == [] {
      forall i: nat ensures !OccursAt(s, q, i) {
      }
    } else {
      IncludesIffOccurs(s[1..], q);
      if i: nat :| OccursAt(s[1..], q, i) {
        OccursShift(s, q, i);
      }
      forall i: nat | OccursAt(s, q, i) && i > 0 ensures OccursAt(s[1..], q, i - 1) {
        OccursShift(s, q, i - 1);
      }
    }
  }

  /** An occurrence in the tail of `s` is an occurrence in `s` one position later. */
  lemma OccursShift(s: string, q: string, i: nat)
    requires s != []
    ensures OccursAt(s[1..], q, i) <==> OccursAt(s, q, i + 1)
  {
    if i + 1 + |q| <= |s| {
      assert s[1..][i..i + |q|] == s[i + 1..i + 1 + |q|];
    }
  }

  /** Every string includes the empty string. */
  lemma IncludesEmpty(s: string)
    ensures Includes(s, "")
  {
  }

  /** JavaScript's WhiteSpace and LineTerminator characters, the ones `trim` removes:
      tab, line tabulation, form feed, space, no-break space, byte-order mark, the
      other space separators, line feed, carriage return, and the line and
      paragraph separators. */
  predicate IsWhiteSpace(c: char)
  {
    var n := c as int;
    n == 0x09 || n == 0x0A || n == 0x0B || n == 0x0C || n == 0x0D || n == 0x20 ||
    n == 0xA0 || n == 0x1680 || (0x2000 <= n <= 0x200A) || n == 0x2028 || n == 0x2029 ||
    n == 0x202F || n == 0x205F || n == 0x3000 || n == 0xFEFF
  }

  /** Every character of `s` is white space. */
  ghost predicate Blank(s: string)
  {
    forall i :: 0 <= i < |s| ==> IsWhiteSpace(s[i])
  }

  /** Drops leading white space. */
  function TrimStart(s: string): string
  {
    if s != [] && IsWhiteSpace(s[0]) then TrimStart(s[1..]) else s
  }

  /** What `TrimStart` drops is a white-space prefix, and what it keeps does not start
      with white space. */
  lemma {:induction false} TrimStartSpec(s: string)
    ensures var r := TrimStart(s);
      && |r| <= |s| && r == s[|s| - |r|..]
      && (r == [] || !IsWhiteSpace(r[0]))
      && Blank(s[..|s| - |r|])
  {
    if s != [] && IsWhiteSpace(s[0]) {
      var s' := s[1..];
      TrimStartSpec(s');
      var r := TrimStart(s');
      assert TrimStart(s) == r;
      assert s'[|s'| - |r|..] == s[|s| - |r|..];
      forall k | 0 <= k < |s| - |r| ensures IsWhiteSpace(s[k]) {
        if 0 < k {
          assert s'[..|s'| - |r|][k - 1] == s[k];
        }
      }
    }
  }

  /** Drops trailing white space. */
  function TrimEnd(s: string): string
  {
    if s != [] && IsWhiteSpace(s[|s| - 1]) then TrimEnd(s[..|s| - 1]) else s
  }

  /** What `TrimEnd` drops is a white-space suffix, and what it keeps does not end
      with white space. */
  lemma {:induction false} TrimEndSpec(s: string)
    ensures var r := TrimEnd(s);
      && |r| <= |s| && r == s[..|r|]
      && (r == [] || !IsWhiteSpace(r[|r| - 1]))
      && Blank(s[|r|..])
  {
    if s != [] && IsWhiteSpace(s[|s| - 1]) {
      var s' := s[..|s| - 1];
      TrimEndSpec(s');
      var r := TrimEnd(s');
      assert TrimEnd(s) == r;
      assert s'[..|r|] == s[..|r|];
      forall k | |r| <= k < |s| ensures IsWhiteSpace(s[k]) {
        if k < |s'| {
          assert s'[|r|..][k - |r|] == s[k];
        }
      }
    }
  }

  /** `s.trim()`: `s` with its leading and its trailing white space removed. */
  function Trim(s: string): string
  {
    TrimEnd(TrimStart(s))
  }

  /** The trimmed string is a piece of `s` with only white space around it, and it
      neither starts nor ends with white space. */
  lemma TrimSpec(s: string)
    ensures exists i: nat :: OccursAt(s, Trim(s), i) && Blank(s[..i]) && Blank(s[i + |Trim(s)|..])
    ensures var r := Trim(s); r == [] || (!IsWhiteSpace(r[0]) && !IsWhiteSpace(r[|r| - 1]))
  {
    var t := TrimStart(s);
    var r := TrimEnd(t);
    TrimStartSpec(s);
    TrimEndSpec(t);
    var i := |s| - |t|;
    assert t == s[i..];
    assert OccursAt(s, r, i) by {
      assert s[i..i + |r|] == t[..|r|];
    }
    assert Blank(s[i + |r|..]) by {
      assert s[i + |r|..] == t[|r|..];
    }
  }

  /** A string of white space only trims to nothing from the start. */
  lemma {:induction false} TrimStartBlank(s: string)
    requires Blank(s)
    ensures TrimStart(s) == []
  {
    if s != [] {
      assert IsWhiteSpace(s[0]);
      forall j | 0 <= j < |s[1..]| ensures IsWhiteSpace(s[1..][j]) {
        assert s[1..][j] == s[j + 1];
      }
      TrimStartBlank(s[1..]);
    }
  }

  /** `s.trim()` is empty (falsy) exactly when `s` consists of white space only. */
  lemma TrimEmptyIffBlank(s: string)
    ensures Trim(s) == "" <==> Blank(s)
  {
    if Blank(s) {
      TrimStartBlank(s);
    }
    if Trim(s) == "" {
      var t := TrimStart(s);
      TrimStartSpec(s);
      TrimEndSpec(t);
      var k := |s| - |t|;
      assert Blank(t) by {
        assert t[|TrimEnd(t)|..] == t;
      }
      assert t == [];
      assert s[..k] == s;
    }
  }
}
