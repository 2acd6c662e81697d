// Strings as the database and the program compare them. A string is a
// sequence of bytes. Lower-casing folds ASCII letters only, in both.
module Text {
  import opened Options

  function LowerChar(c: char): (r: char) {
    if 'A' <= c <= 'Z' then (c as int + 32) as char else c
  }

  function Lower(s: string): (r: string)
    ensures |r| == |s|
    ensures forall i | 0 <= i < |s| :: r[i] == LowerChar(s[i])
  {
    seq(|s|, i requires 0 <= i < |s| => LowerChar(s[i]))
  }

  lemma LowerTwice(s: string)
    ensures Lower(Lower(s)) == Lower(s)
  {
  }

  predicate OccursAt(s: string, t: string, i: nat) {
    i + |t| <= |s| && s[i..i + |t|] == t
  }

  /** strpos(s, t) > 0, strings.Contains(s, t). */
  predicate Contains(s: string, t: string) {
    exists i | 0 <= i <= |s| :: OccursAt(s, t, i)
  }

  /** A text holds every character of what it contains. */
  lemma ContainsChar(s: string, t: string, c: char)
    requires Contains(s, t) && c in t
    ensures c in s
  {
    var i :| 0 <= i <= |s| && OccursAt(s, t, i);
    var j :| 0 <= j < |t| && t[j] == c;
    assert s[i..i + |t|][j] == s[i + j];
  }

  predicate IsBlank(c: char) {
    c == ' ' || c == '\t' || c == '\n' || c == '\r' || c == '\U{b}' || c == '\U{c}'
  }

  function TrimLeft(s: string, drop: char -> bool): (r: string)
    ensures |r| <= |s| && r == s[|s| - |r|..]
    ensures r != [] ==> !drop(r[0])
    ensures s != [] && !drop(s[0]) ==> r == s
  {
    if s != [] && drop(s[0]) then TrimLeft(s[1..], drop) else s
  }

  function TrimRight(s: string, drop: char -> bool): (r: string)
    ensures r <= s
    ensures r != [] ==> !drop(r[|r| - 1])
    ensures s != [] && !drop(s[|s| - 1]) ==> r == s
  {
    if s != [] && drop(s[|s| - 1]) then TrimRight(s[..|s| - 1], drop) else s
  }

  function Trim(s: string, drop: char -> bool): (r: string)
    ensures r != [] ==> !drop(r[0]) && !drop(r[|r| - 1])
    ensures s != [] && !drop(s[0]) && !drop(s[|s| - 1]) ==> r == s
    ensures |r| <= |s|
  {
    TrimRight(TrimLeft(s, drop), drop)
  }

  predicate IsSpace(c: char) {
    c == ' '
  }

  /** btrim: the database drops spaces only. */
  function Btrim(s: string): (r: string)
    ensures r != [] ==> !IsSpace(r[0]) && !IsSpace(r[|r| - 1])
    ensures s == [] || (!IsSpace(s[0]) && !IsSpace(s[|s| - 1])) ==> r == s
  {
    Trim(s, IsSpace)
  }

  /** strings.TrimSpace: the program drops every kind of white space. */
  function TrimSpace(s: string): (r: string) {
    Trim(s, IsBlank)
  }

  predicate AllOf(pad: string, drop: char -> bool) {
    forall i | 0 <= i < |pad| :: drop(pad[i])
  }

  lemma {:induction false} TrimLeftPad(pad: string, s: string, drop: char -> bool)
    requires AllOf(pad, drop)
    ensures TrimLeft(pad + s, drop) == TrimLeft(s, drop)
  {
    if pad == "" {
      assert pad + s == s;
    } else {
      assert (pad + s)[1..] == pad[1..] + s;
      TrimLeftPad(pad[1..], s, drop);
    }
  }

  lemma {:induction false} TrimRightPad(s: string, pad: string, drop: char -> bool)
    requires AllOf(pad, drop)
    ensures TrimRight(s + pad, drop) == TrimRight(s, drop)
  {
    if pad == "" {
      assert s + pad == s;
    } else {
      assert (s + pad)[..|s + pad| - 1] == s + pad[..|pad| - 1];
      TrimRightPad(s, pad[..|pad| - 1], drop);
    }
  }

  lemma {:induction false} TrimLeftDrops(s: string, drop: char -> bool)
    ensures AllOf(s[..|s| - |TrimLeft(s, drop)|], drop)
  {
    if s != [] && drop(s[0]) {
      TrimLeftDrops(s[1..], drop);
      var n := |s| - |TrimLeft(s, drop)|;
      assert s[..n] == [s[0]] + s[1..][..n - 1];
    }
  }

  lemma {:induction false} TrimRightDrops(s: string, drop: char -> bool)
    ensures AllOf(s[|TrimRight(s, drop)|..], drop)
  {
    if s != [] && drop(s[|s| - 1]) {
      var init := s[..|s| - 1];
      TrimRightDrops(init, drop);
      assert s[|TrimRight(s, drop)|..] == init[|TrimRight(init, drop)|..] + [s[|s| - 1]];
    }
  }

  lemma TrimLeftSplits(s: string, drop: char -> bool) returns (dropped: string)
    ensures AllOf(dropped, drop) && s == dropped + TrimLeft(s, drop)
  {
    hide TrimLeft;
    TrimLeftDrops(s, drop);
    dropped := s[..|s| - |TrimLeft(s, drop)|];
  }

  lemma TrimRightSplits(s: string, drop: char -> bool) returns (dropped: string)
    ensures AllOf(dropped, drop) && s == TrimRight(s, drop) + dropped
  {
    hide TrimRight;
    TrimRightDrops(s, drop);
    dropped := s[|TrimRight(s, drop)|..];
  }

  lemma TrimSplits(s: string, drop: char -> bool) returns (left: string, right: string)
    ensures AllOf(left, drop) && AllOf(right, drop) && s == left + (Trim(s, drop) + right)
  {
    hide TrimLeft, TrimRight, AllOf;
    left := TrimLeftSplits(s, drop);
    right := TrimRightSplits(TrimLeft(s, drop), drop);
  }

  lemma {:induction false} AllIsTrimmed(pad: string, drop: char -> bool)
    requires AllOf(pad, drop)
    ensures TrimLeft(pad, drop) == []
  {
    if pad != [] {
      AllIsTrimmed(pad[1..], drop);
    }
  }

  lemma {:induction false} TrimLeftOf(s: string, right: string, drop: char -> bool)
    requires AllOf(right, drop)
    ensures TrimLeft(s + right, drop) == if TrimLeft(s, drop) == [] then [] else TrimLeft(s, drop) + right
  {
    if s == [] {
      assert s + right == right;
      AllIsTrimmed(right, drop);
    } else {
      assert (s + right)[1..] == s[1..] + right;
      if drop(s[0]) {
        TrimLeftOf(s[1..], right, drop);
      }
    }
  }

  lemma TrimPads(left: string, s: string, right: string, drop: char -> bool)
    requires AllOf(left, drop) && AllOf(right, drop)
    ensures Trim(left + s + right, drop) == Trim(s, drop)
  {
    hide TrimLeft, TrimRight, AllOf;
    assert Trim(left + s + right, drop) == TrimRight(TrimLeft(left + (s + right), drop), drop) by {
      assert left + s + right == left + (s + right);
    }
    TrimLeftPad(left, s + right, drop);
    TrimLeftOf(s, right, drop);
    TrimRightPad(TrimLeft(s, drop), right, drop);
  }

  /** The program trims what the database left, and agrees with it exactly when
      no other white space is left at an end. */
  lemma TrimsAgree(s: string)
    ensures TrimSpace(s) == TrimSpace(Btrim(s))
    ensures |TrimSpace(s)| == |Btrim(s)| ==> TrimSpace(s) == Btrim(s)
  {
    hide TrimLeft, TrimRight, Trim, Btrim, AllOf, TrimSpace;
    var left, right := BtrimSplits(s);
    assert TrimSpace(s) == TrimSpace(Btrim(s)) by {
      SpacePads(left, Btrim(s), right);
    }
    TrimmedWhole(Btrim(s));
  }

  lemma SpacePads(left: string, s: string, right: string)
    requires AllOf(left, IsBlank) && AllOf(right, IsBlank)
    ensures TrimSpace(left + s + right) == TrimSpace(s)
  {
    hide TrimLeft, TrimRight, AllOf;
    TrimPads(left, s, right, IsBlank);
  }

  lemma BtrimSplits(s: string) returns (left: string, right: string)
    ensures AllOf(left, IsBlank) && AllOf(right, IsBlank) && s == left + Btrim(s) + right
  {
    hide Trim, AllOf, IsBlank, IsSpace;
    left, right := TrimSplits(s, IsSpace);
    assert s == left + (Btrim(s) + right);
    SpacesAreBlank(left);
    SpacesAreBlank(right);
  }

  lemma SpacesAreBlank(pad: string)
    requires AllOf(pad, IsSpace)
    ensures AllOf(pad, IsBlank)
  {
  }

  lemma TrimmedWhole(s: string)
    ensures |TrimSpace(s)| == |s| ==> TrimSpace(s) == s
  {
    hide TrimLeft, TrimRight;
    var kept := TrimLeft(s, IsBlank);
    assert |kept| == |s| ==> kept == s;
  }

  /** Where c first is in s at or after an index. */
  function IndexFrom(s: string, c: char, from: nat): (r: Option<nat>)
    ensures r.Some? ==> from <= r.value < |s| && s[r.value] == c && forall j | from <= j < r.value :: s[j] != c
    ensures r.None? ==> forall j | from <= j < |s| :: s[j] != c
    decreases |s| - from
  {
    if from >= |s| then None
    else if s[from] == c then Some(from)
    else IndexFrom(s, c, from + 1)
  }

  /** Where c last is in s. */
  function LastIndexOf(s: string, c: char): (r: Option<nat>)
    ensures r.Some? ==> r.value < |s| && s[r.value] == c && forall j | r.value < j < |s| :: s[j] != c
    ensures r.None? ==> forall j | 0 <= j < |s| :: s[j] != c
  {
    if s == "" then None
    else if s[|s| - 1] == c then Some(|s| - 1)
    else
      assert forall j | 0 <= j < |s| - 1 :: s[j] == s[..|s| - 1][j];
      LastIndexOf(s[..|s| - 1], c)
  }

  lemma IndexFromIs(s: string, c: char, from: nat, i: nat)
    requires from <= i < |s| && s[i] == c && forall j | from <= j < i :: s[j] != c
    ensures IndexFrom(s, c, from) == Some(i)
  {
  }

  function HexValue(c: char): (r: Option<nat>)
    ensures r.Some? ==> r.value < 16
  {
    if '0' <= c <= '9' then Some(c as int - '0' as int)
    else if 'a' <= c <= 'f' then Some(c as int - 'a' as int + 10)
    else if 'A' <= c <= 'F' then Some(c as int - 'A' as int + 10)
    else None
  }

  lemma HexExactly(c: char, n: nat)
    requires n < 16
    ensures HexValue(c) == Some(n) <==> c == "0123456789abcdef"[n] || c == "0123456789ABCDEF"[n]
  {
  }

  // ---- Percent-encoding ----------------------------------------------------

  /** url.QueryUnescape (plus) and url.PathUnescape: every %XX is a byte, a '+'
      is a space in a query; None for a '%' without two hexadecimal digits. */
  function Unescape(s: string, plus: bool): (r: Option<string>) {
    if s == "" then Some("")
    else if s[0] == '%' then
      if |s| < 3 || HexValue(s[1]).None? || HexValue(s[2]).None? then None
      else Prepend((16 * HexValue(s[1]).value + HexValue(s[2]).value) as char, Unescape(s[3..], plus))
    else Prepend(if plus && s[0] == '+' then ' ' else s[0], Unescape(s[1..], plus))
  }

  /** Every '%' begins an escape: two hexadecimal digits follow it. */
  predicate WellEscaped(s: string) {
    forall i | 0 <= i < |s| && s[i] == '%' :: i + 2 < |s| && HexValue(s[i + 1]).Some? && HexValue(s[i + 2]).Some?
  }

  lemma {:induction false} UnescapesExactly(s: string, plus: bool)
    ensures Unescape(s, plus).Some? <==> WellEscaped(s)
  {
    if s != "" {
      var n := if s[0] == '%' then 3 else 1;
      if n <= |s| {
        UnescapesExactly(s[n..], plus);
        DropsItsHead(s, n);
      }
    }
  }

  lemma DropsItsHead(s: string, n: nat)
    requires n <= |s| && (n == 1 || n == 3)
    requires n == 3 <==> s[0] == '%'
    ensures WellEscaped(s) <==> WellEscaped(s[n..]) && (s[0] == '%' ==> HexValue(s[1]).Some? && HexValue(s[2]).Some?)
  {
    hide HexValue;
    HexIsNoPercent();
    if WellEscaped(s[n..]) && (s[0] == '%' ==> HexValue(s[1]).Some? && HexValue(s[2]).Some?) {
      forall i | 0 <= i < |s| && s[i] == '%'
        ensures i + 2 < |s| && HexValue(s[i + 1]).Some? && HexValue(s[i + 2]).Some?
      {
        if i >= n {
          assert s[n..][i - n] == '%';
        }
      }
    }
    if WellEscaped(s) {
      forall i | 0 <= i < |s[n..]| && s[n..][i] == '%'
        ensures i + 2 < |s[n..]| && HexValue(s[n..][i + 1]).Some? && HexValue(s[n..][i + 2]).Some?
      {
        assert s[i + n] == '%';
      }
    }
  }

  lemma HexIsNoPercent()
    ensures HexValue('%').None?
  {
  }

  /** Whether what follows would be read as part of an escape begun before. */
  predicate EndsInsideEscape(s: string) {
    (|s| > 0 && s[|s| - 1] == '%') || (|s| > 1 && s[|s| - 2] == '%')
  }

  lemma EscapedInParts(a: string, b: string)
    requires WellEscaped(a + b) && !EndsInsideEscape(a)
    ensures WellEscaped(a) && WellEscaped(b)
  {
    hide HexValue;
    forall i | 0 <= i < |a| && a[i] == '%'
      ensures i + 2 < |a| && HexValue(a[i + 1]).Some? && HexValue(a[i + 2]).Some?
    {
      assert (a + b)[i] == '%' && i + 2 < |a|;
      assert (a + b)[i + 1] == a[i + 1] && (a + b)[i + 2] == a[i + 2];
    }
    forall i | 0 <= i < |b| && b[i] == '%'
      ensures i + 2 < |b| && HexValue(b[i + 1]).Some? && HexValue(b[i + 2]).Some?
    {
      assert (a + b)[|a| + i] == '%' && i + 2 < |b|;
      assert (a + b)[|a| + i + 1] == b[i + 1] && (a + b)[|a| + i + 2] == b[i + 2];
    }
  }

  function Prepend(c: char, s: Option<string>): (r: Option<string>) {
    if s.None? then None else Some([c] + s.value)
  }

  lemma PrependJoins(c: char, a: string, b: string)
    ensures Prepend(c, Some(a + b)) == Some(Prepend(c, Some(a)).value + b)
  {
    assert [c] + (a + b) == ([c] + a) + b;
  }

  lemma {:induction false} UnescapeJoins(a: string, b: string, plus: bool)
    requires Unescape(a, plus).Some?
    ensures Unescape(a + b, plus) ==
              if Unescape(b, plus).None? then None else Some(Unescape(a, plus).value + Unescape(b, plus).value)
  {
    if a == "" {
      assert a + b == b;
      assert Unescape(b, plus).Some? ==> "" + Unescape(b, plus).value == Unescape(b, plus).value;
    } else {
      var n := if a[0] == '%' then 3 else 1;
      assert (a + b)[n..] == a[n..] + b;
      UnescapeJoins(a[n..], b, plus);
      if Unescape(b, plus).Some? {
        var c := if a[0] == '%' then (16 * HexValue(a[1]).value + HexValue(a[2]).value) as char
                 else if plus && a[0] == '+' then ' ' else a[0];
        PrependJoins(c, Unescape(a[n..], plus).value, Unescape(b, plus).value);
      }
    }
  }

  /** How one byte of a text is written in a link. */
  datatype Written = AsIs | Percent(high: char, low: char) | Plus

  predicate IsWritten(c: char, w: Written, plus: bool) {
    match w
    case AsIs => c != '%' && !(plus && c == '+')
    case Percent(high, low) =>
      HexValue(high).Some? && HexValue(low).Some? && c as int == 16 * HexValue(high).value + HexValue(low).value
    case Plus => plus && c == ' '
  }

  function Escaped(s: string, ways: seq<Written>): (r: string)
    requires |s| == |ways|
  {
    if s == "" then ""
    else
      (match ways[0]
       case AsIs => [s[0]]
       case Percent(high, low) => ['%', high, low]
       case Plus => "+")
      + Escaped(s[1..], ways[1..])
  }

  /** Whichever way each byte was written, unescaping gives the text back. */
  lemma {:induction false} EscapedIsRead(s: string, ways: seq<Written>, plus: bool)
    requires |s| == |ways| && forall i | 0 <= i < |s| :: IsWritten(s[i], ways[i], plus)
    ensures Unescape(Escaped(s, ways), plus) == Some(s)
  {
    if s != "" {
      EscapedIsRead(s[1..], ways[1..], plus);
      var head := match ways[0]
        case AsIs => [s[0]]
        case Percent(high, low) => ['%', high, low]
        case Plus => "+";
      ByteIsRead(s[0], ways[0], plus, head);
      UnescapeJoins(head, Escaped(s[1..], ways[1..]), plus);
      assert [s[0]] + s[1..] == s;
    }
  }

  lemma ByteIsRead(c: char, w: Written, plus: bool, head: string)
    requires IsWritten(c, w, plus)
    requires head == (match w case AsIs => [c] case Percent(high, low) => ['%', high, low] case Plus => "+")
    ensures Unescape(head, plus) == Some([c])
  {
    assert [c] + "" == [c];
    if w.Percent? {
      assert head[3..] == "";
      assert (16 * HexValue(w.high).value + HexValue(w.low).value) as char == c;
    } else {
      assert head[1..] == "";
    }
  }
}
