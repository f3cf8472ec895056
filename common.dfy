/** Small value types and JavaScript string helpers shared by every module:
    optional values, truthiness of optional strings, ASCII lower-casing,
    `String.prototype.trim` and `String.prototype.includes`. */
module Common {

  datatype Option<T> = None | Some(value: T)

  /** JavaScript truthiness of a string field that may be missing:
      `undefined`, `null` and "" are falsy, every other string is truthy. */
  predicate Truthy(o: Option<string>) {
    o.Some? && o.value != ""
  }

  /** `o || fallback` on an optional string. */
  function OrElse(o: Option<string>, fallback: string): (r: string)
    ensures Truthy(o) ==> r == o.value
    ensures !Truthy(o) ==> r == fallback
  {
    if Truthy(o) then o.value else fallback
  }

  /** A value defaulted with a non-empty fallback is truthy, so a second
      `||` keeps it whatever its own fallback. */
  lemma OrElseIdempotent(o: Option<string>, fallback: string, other: string)
    requires fallback != ""
    ensures Truthy(Some(OrElse(o, fallback)))
    ensures OrElse(Some(OrElse(o, fallback)), other) == OrElse(o, fallback)
  {
  }

  /** How a template literal prints a string field: the text itself, even
      when it is empty, or "undefined" when the field is missing. */
  function Interpolated(o: Option<string>): (r: string)
    ensures o.Some? ==> r == o.value
    ensures o.None? ==> r == "undefined"
  {
    match o
    case Some(t) => t
    case None => "undefined"
  }

  /** Interpolating a field differs from `o || "undefined"` exactly on the
      empty text, which prints as nothing. */
  lemma InterpolatedOrElse(o: Option<string>)
    ensures Interpolated(o) != OrElse(o, "undefined") <==> o == Some("")
  {
  }

  /** `toLowerCase` on one character; only A-Z are mapped (the model
      does not carry Unicode case tables). */
  function LowerChar(c: char): (r: char)
    ensures 'A' <= c <= 'Z' ==> r as int == c as int + 32
    ensures !('A' <= c <= 'Z') ==> r == c
  {
    if 'A' <= c <= 'Z' then (c as int + 32) as char else c
  }

  /** `toLowerCase`: no capital letter remains, and every character that
      is not one is kept in place. */
  function ToLower(s: string): (r: string)
    ensures |r| == |s|
    ensures forall i :: 0 <= i < |s| ==> r[i] == LowerChar(s[i])
    ensures forall i :: 0 <= i < |r| ==> !('A' <= r[i] <= 'Z')
    ensures forall i :: 0 <= i < |s| && !('A' <= s[i] <= 'Z') ==> r[i] == s[i]
  {
    seq(|s|, i requires 0 <= i < |s| => LowerChar(s[i]))
  }

  /** The white space and line terminators of ECMAScript outside the
      block U+2000..U+200A, numbered 0 to 13; none is a visible ASCII
      character. */
  function SpaceChar(i: nat): (c: char)
    requires i < 14
    ensures !('!' <= c <= '~')
  {
    match i
    case 0 => ' '
    case 1 => '\t'
    case 2 => '\n'
    case 3 => '\r'
    case 4 => '\U{B}'
    case 5 => '\U{C}'
    case 6 => '\U{A0}'
    case 7 => '\U{1680}'
    case 8 => '\U{2028}'
    case 9 => '\U{2029}'
    case 10 => '\U{202F}'
    case 11 => '\U{205F}'
    case 12 => '\U{3000}'
    case _ => '\U{FEFF}'
  }

  /** `c` is one of the characters numbered `i` to 13. */
  predicate SpaceFrom(c: char, i: nat)
    decreases 14 - i
  {
    i < 14 && (c == SpaceChar(i) || SpaceFrom(c, i + 1))
  }

  /** The characters `String.prototype.trim` removes: white space and
      line terminators of ECMAScript. */
  predicate IsSpace(c: char) {
    ('\U{2000}' <= c <= '\U{200A}') || SpaceFrom(c, 0)
  }

  lemma {:induction false} VisibleNotSpaceFrom(c: char, i: nat)
    requires '!' <= c <= '~'
    ensures !SpaceFrom(c, i)
    decreases 14 - i
  {
    if i < 14 {
      VisibleNotSpaceFrom(c, i + 1);
    }
  }

  /** No visible ASCII character is white space. */
  lemma VisibleNotSpace(c: char)
    requires '!' <= c <= '~'
    ensures !IsSpace(c)
  {
    VisibleNotSpaceFrom(c, 0);
  }

  function TrimStart(s: string): (r: string)
    ensures |r| <= |s| && r == s[|s| - |r|..]
    ensures r == [] || !IsSpace(r[0])
    ensures forall i :: 0 <= i < |s| - |r| ==> IsSpace(s[i])
  {
    if s == [] || !IsSpace(s[0]) then s
    else
      var t := TrimStart(s[1..]);
      assert s[1..][|s| - 1 - |t|..] == s[|s| - |t|..];
      assert forall i :: 1 <= i < |s| - |t| ==> s[i] == s[1..][i - 1];
      t
  }

  function TrimEnd(s: string): (r: string)
    ensures |r| <= |s| && r == s[..|r|]
    ensures r == [] || !IsSpace(r[|r| - 1])
    ensures forall i :: |r| <= i < |s| ==> IsSpace(s[i])
  {
    if s == [] || !IsSpace(s[|s| - 1]) then s
    else
      var t := TrimEnd(s[..|s| - 1]);
      assert s[..|s| - 1][..|t|] == s[..|t|];
      t
  }

  lemma SliceOfSuffix(s: string, k: nat, n: nat)
    requires k + n <= |s|
    ensures s[k..][..n] == s[k..k + n]
  {
  }

  /** Text that starts with a visible ASCII character keeps its start. */
  lemma TrimStartVisible(s: string)
    requires s != [] && '!' <= s[0] <= '~'
    ensures TrimStart(s) == s
  {
    VisibleNotSpace(s[0]);
  }

  /** White space at the end of `s[k..]` is white space at the end of `s`. */
  lemma SpaceAfter(s: string, k: nat, n: nat)
    requires k + n <= |s| && forall i :: n <= i < |s[k..]| ==> IsSpace(s[k..][i])
    ensures forall i :: k + n <= i < |s| ==> IsSpace(s[i])
  {
    forall i | k + n <= i < |s| ensures IsSpace(s[i]) { assert s[i] == s[k..][i - k]; }
  }

  /** `r` occurs in `s` at index `k` with only white space around it. */
  predicate SpaceAround(s: string, r: string, k: nat) {
    k + |r| <= |s| && s[k..k + |r|] == r
    && (forall i :: 0 <= i < k ==> IsSpace(s[i]))
    && (forall i :: k + |r| <= i < |s| ==> IsSpace(s[i]))
  }

  /** Removing leading white space from `s` to get `t` and trailing white
      space from `t` to get `r` leaves `r` inside `s` with only white space
      around it. */
  lemma SpaceAroundOfEnds(s: string, t: string, r: string)
    requires |t| <= |s| && t == s[|s| - |t|..] && forall i :: 0 <= i < |s| - |t| ==> IsSpace(s[i])
    requires |r| <= |t| && r == t[..|r|] && forall i :: |r| <= i < |t| ==> IsSpace(t[i])
    ensures SpaceAround(s, r, |s| - |t|)
  {
    var k := |s| - |t|;
    SliceOfSuffix(s, k, |r|);
    SpaceAfter(s, k, |r|);
  }

  /** What `TrimStart` and then `TrimEnd` leave of `s` is an infix of `s`
      with only white space around it. */
  lemma TrimEndStartShape(s: string)
    ensures SpaceAround(s, TrimEnd(TrimStart(s)), |s| - |TrimStart(s)|)
  {
    SpaceAroundOfEnds(s, TrimStart(s), TrimEnd(TrimStart(s)));
  }

  /** Neither end of what `TrimStart` and then `TrimEnd` leave is white space. */
  lemma TrimEndStartEnds(s: string)
    ensures var r := TrimEnd(TrimStart(s)); r == [] || (!IsSpace(r[0]) && !IsSpace(r[|r| - 1]))
  {
    var t := TrimStart(s);
    var r := TrimEnd(t);
    if r != [] {
      assert r[0] == t[0];
    }
  }

  /** `s.trim()`: the longest infix of `s` that neither starts nor ends
      with white space, obtained by removing only white space. */
  function Trim(s: string): (r: string)
    ensures r == [] || (!IsSpace(r[0]) && !IsSpace(r[|r| - 1]))
    ensures exists k: nat :: SpaceAround(s, r, k)
  {
    TrimEndStartShape(s);
    TrimEndStartEnds(s);
    TrimEnd(TrimStart(s))
  }

  /** Text that neither starts nor ends with white space is left as it is. */
  lemma TrimUnchanged(s: string)
    requires s == [] || (!IsSpace(s[0]) && !IsSpace(s[|s| - 1]))
    ensures Trim(s) == s
  {
  }

  /** Trimming leaves some text exactly when the text holds a character
      that is not white space. */
  lemma TrimBlankIff(s: string)
    ensures Trim(s) != "" <==> exists i :: 0 <= i < |s| && !IsSpace(s[i])
  {
    var r := Trim(s);
    var k: nat :| SpaceAround(s, r, k);
    if r != "" {
      assert s[k..k + |r|][0] == s[k];
    }
  }

  lemma TrimIsEnds(s: string)
    ensures Trim(s) == TrimEnd(TrimStart(s))
  {
  }

  lemma {:induction false} TrimStartSkips(s: string, i: nat)
    requires i <= |s| && (forall k :: 0 <= k < i ==> IsSpace(s[k]))
    requires i == |s| || !IsSpace(s[i])
    ensures TrimStart(s) == s[i..]
  {
    if i > 0 {
      assert s[1..][i - 1..] == s[i..];
      TrimStartSkips(s[1..], i - 1);
    }
  }

  lemma {:induction false} TrimEndSkips(s: string, j: nat)
    requires j <= |s| && (forall k :: j <= k < |s| ==> IsSpace(s[k]))
    requires j == 0 || !IsSpace(s[j - 1])
    ensures TrimEnd(s) == s[..j]
  {
    if j < |s| {
      assert s[..|s| - 1][..j] == s[..j];
      TrimEndSkips(s[..|s| - 1], j);
    }
  }

  /** The white space after position `j` of `s[i..]` is what `TrimEnd` removes. */
  lemma TrimEndOfRest(s: string, i: nat, j: nat)
    requires i < j <= |s|
    requires forall k :: j <= k < |s| ==> IsSpace(s[k])
    requires !IsSpace(s[j - 1])
    ensures TrimEnd(s[i..]) == s[i..j]
  {
    var t := s[i..];
    forall k | j - i <= k < |t| ensures IsSpace(t[k]) { assert t[k] == s[i + k]; }
    assert t[j - i - 1] == s[j - 1];
    TrimEndSkips(t, j - i);
    assert t[..j - i] == s[i..j];
  }

  lemma TrimEndStartAround(s: string, i: nat, j: nat)
    requires i <= j <= |s|
    requires forall k :: 0 <= k < i ==> IsSpace(s[k])
    requires forall k :: j <= k < |s| ==> IsSpace(s[k])
    requires i == j || (!IsSpace(s[i]) && !IsSpace(s[j - 1]))
    ensures TrimEnd(TrimStart(s)) == s[i..j]
  {
    if i < j {
      TrimStartSkips(s, i);
      TrimEndOfRest(s, i, j);
    } else {
      TrimStartSkips(s, |s|);
      assert TrimStart(s) == [];
    }
  }

  /** Trimming removes exactly the white space around a core that neither
      starts nor ends with white space. */
  lemma TrimAround(s: string, i: nat, j: nat)
    requires i <= j <= |s|
    requires forall k :: 0 <= k < i ==> IsSpace(s[k])
    requires forall k :: j <= k < |s| ==> IsSpace(s[k])
    requires i == j || (!IsSpace(s[i]) && !IsSpace(s[j - 1]))
    ensures Trim(s) == s[i..j]
  {
    TrimIsEnds(s);
    TrimEndStartAround(s, i, j);
  }

  lemma ToLowerAppend(a: string, b: string)
    ensures ToLower(a + b) == ToLower(a) + ToLower(b)
  {
  }

  /** Text without capital letters is its own lower case. */
  lemma ToLowerUnchanged(s: string)
    requires forall i :: 0 <= i < |s| ==> !('A' <= s[i] <= 'Z')
    ensures ToLower(s) == s
  {
  }

  /** Lower-casing twice is lower-casing once. */
  lemma ToLowerIdempotent(s: string)
    ensures ToLower(ToLower(s)) == ToLower(s)
  {
    ToLowerUnchanged(ToLower(s));
  }

  /** True when `t` occurs in `s` starting at index `i`. */
  predicate OccursAt(s: string, t: string, i: int) {
    0 <= i && i + |t| <= |s| && s[i..i + |t|] == t
  }

  /** `s.includes(t)`, computed by scanning the start positions from `from`. */
  predicate IncludesFrom(s: string, t: string, from: nat)
    decreases |s| - from
  {
    from + |t| <= |s| && (s[from..from + |t|] == t || IncludesFrom(s, t, from + 1))
  }

  predicate Includes(s: string, t: string) {
    IncludesFrom(s, t, 0)
  }

  lemma {:induction false} IncludesFromIff(s: string, t: string, from: nat)
    ensures IncludesFrom(s, t, from) <==> exists i :: from <= i && OccursAt(s, t, i)
    decreases |s| - from
  {
    if from + |t| <= |s| {
      IncludesFromIff(s, t, from + 1);
      if s[from..from + |t|] == t {
        assert OccursAt(s, t, from);
      }
      if exists i :: from <= i && OccursAt(s, t, i) {
        var i :| from <= i && OccursAt(s, t, i);
        if i != from {
          assert from + 1 <= i && OccursAt(s, t, i);
        }
      }
    } else {
      forall i | from <= i ensures !OccursAt(s, t, i) { }
    }
  }

  /** `includes` holds exactly when `t` occurs somewhere in `s`. */
  lemma IncludesIff(s: string, t: string)
    ensures Includes(s, t) <==> exists i :: OccursAt(s, t, i)
  {
    IncludesFromIff(s, t, 0);
    if exists i :: OccursAt(s, t, i) {
      var i :| OccursAt(s, t, i);
      assert 0 <= i;
    }
  }

  /** A text placed between two others is included in the whole. */
  lemma IncludesMiddle(a: string, t: string, b: string)
    ensures Includes(a + t + b, t)
  {
    var s := a + t + b;
    assert s[|a|..|a| + |t|] == t;
    assert OccursAt(s, t, |a|);
    IncludesIff(s, t);
  }

  /** Text found in a prefix is found in the whole. */
  lemma IncludesExtend(p: string, t: string, rest: string)
    requires Includes(p, t)
    ensures Includes(p + rest, t)
  {
    IncludesIff(p, t);
    var i :| OccursAt(p, t, i);
    assert (p + rest)[i..i + |t|] == p[i..i + |t|];
    assert OccursAt(p + rest, t, i);
    IncludesIff(p + rest, t);
  }

  /** Appending `t` keeps every text already found and adds `t` itself. */
  lemma IncludesGrow(p: string, found: seq<string>, t: string)
    requires forall x :: x in found ==> Includes(p, x)
    ensures forall x :: x in found ==> Includes(p + t, x)
    ensures Includes(p + t, t)
  {
    forall x | x in found ensures Includes(p + t, x) {
      IncludesExtend(p, x, t);
    }
    IncludesMiddle(p, t, "");
    assert p + t + "" == p + t;
  }

  /** Every text includes the empty text. */
  lemma IncludesEmpty(s: string)
    ensures Includes(s, "")
  {
    assert OccursAt(s, "", 0);
    IncludesIff(s, "");
  }
}
