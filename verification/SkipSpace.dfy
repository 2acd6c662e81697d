// The reader that undoes the wrapping of base64: it drops line breaks, spaces
// and tabs from what another reader gives, in the caller's own buffer.
module SkipSpace {
  import opened Options

  predicate IsDropped(b: char) {
    b == '\r' || b == '\n' || b == ' ' || b == '\t'
  }

  function Kept(s: seq<char>): (r: seq<char>)
    ensures |r| <= |s|
  {
    if s == [] then []
    else Kept(s[..|s| - 1]) + (if IsDropped(s[|s| - 1]) then [] else [s[|s| - 1]])
  }

  lemma {:induction false} KeptJoins(a: seq<char>, b: seq<char>)
    ensures Kept(a + b) == Kept(a) + Kept(b)
  {
    if b == [] {
      assert a + b == a;
    } else {
      assert (a + b)[..|a + b| - 1] == a + b[..|b| - 1];
      KeptJoins(a, b[..|b| - 1]);
    }
  }

  lemma KeptOfNone()
    ensures Kept([]) == []
  {
  }

  /** Of one byte: nothing of a line break, a space or a tab, and any other whole. */
  lemma KeptOfOne(b: char)
    ensures Kept([b]) == if b == '\r' || b == '\n' || b == ' ' || b == '\t' then [] else [b]
  {
    KeptOfNone();
    assert [b][..0] == [];
  }

  /** Whether a call stopped the reading: at the end, or by a failure. */
  datatype Stop = GoesOn | Ends | Fails

  /** How one call of the inner reader answers: at most this many bytes, and
      whether it then fails, or tells the end with the last of them. */
  datatype Answer = Answer(most: nat, stop: Stop)

  /** Any reader of some bytes: answers says how it cuts them into calls, empty
      answers, failures and the end's place included; past them it gives what
      it has. */
  class Inner {
    var rest: seq<char>
    var answers: seq<Answer>

    constructor (data: seq<char>, answers: seq<Answer>)
      ensures rest == data && this.answers == answers
    {
      rest, this.answers := data, answers;
    }

    method Read(p: array<char>) returns (n: nat, stop: Stop)
      modifies this, p
      ensures n <= p.Length && n <= |old(rest)|
      ensures p[..n] == old(rest)[..n] && rest == old(rest)[n..]
      ensures stop.Ends? ==> rest == []
      ensures p.Length > 0 && stop.GoesOn? ==> |rest| + |answers| < old(|rest| + |answers|)
      ensures |answers| <= old(|answers|)
    {
      var answer := Answer(|rest|, Ends);
      if answers != [] {
        answer := answers[0];
        answers := answers[1..];
      } else if rest != [] {
        answer := Answer(|rest|, GoesOn);
      }
      n := if p.Length < |rest| then p.Length else |rest|;
      n := if answer.most < n then answer.most else n;
      forall i | 0 <= i < n {
        p[i] := rest[i];
      }
      rest := rest[n..];
      stop := if answer.stop.Ends? && rest != [] then GoesOn else answer.stop;
    }
  }

  /** Moves the bytes kept to the front of the buffer. */
  method Compact(p: array<char>, n: nat) returns (kept: nat)
    requires n <= p.Length
    modifies p
    ensures kept <= n && p[..kept] == Kept(old(p[..n]))
  {
    ghost var read := p[..n];
    kept := 0;
    for i := 0 to n
      invariant kept <= i
      invariant p[..kept] == Kept(read[..i])
      invariant forall j | i <= j < n :: p[j] == read[j]
    {
      assert read[..i + 1][..i] == read[..i];
      if !IsDropped(p[i]) {
        p[kept] := p[i];
        kept := kept + 1;
      }
    }
    assert read[..n] == read;
  }

  class Skipper {
    const inner: Inner

    constructor (inner: Inner)
      ensures this.inner == inner
    {
      this.inner := inner;
    }

    /** Reads on until a byte is kept or the inner reader stops: what it puts in
        the buffer is exactly what is kept of what it took, it never gives
        nothing without a stop, and it passes the inner reader's stop on. */
    method Read(p: array<char>) returns (kept: nat, stop: Stop)
      requires p.Length > 0
      modifies inner, p
      ensures kept <= p.Length
      ensures |inner.rest| <= |old(inner.rest)|
      ensures inner.rest == old(inner.rest)[|old(inner.rest)| - |inner.rest|..]
      ensures p[..kept] == Kept(old(inner.rest)[..|old(inner.rest)| - |inner.rest|])
      ensures kept > 0 || !stop.GoesOn?
      ensures stop.Ends? ==> inner.rest == []
      ensures stop.GoesOn? ==> |inner.rest| + |inner.answers| < old(|inner.rest| + |inner.answers|)
    {
      hide Kept;
      ghost var all := inner.rest;
      ghost var taken := 0;
      KeptOfNone();
      assert all[..0] == [];
      while true
        invariant 0 <= taken <= |all| && inner.rest == all[taken..]
        invariant Kept(all[..taken]) == []
        invariant |inner.rest| + |inner.answers| <= old(|inner.rest| + |inner.answers|)
        decreases |inner.rest| + |inner.answers|
      {
        var n;
        n, stop := inner.Read(p);
        ghost var read := p[..n];
        assert read == all[taken..taken + n];
        kept := Compact(p, n);
        assert all[..taken + n] == all[..taken] + read;
        KeptJoins(all[..taken], read);
        taken := taken + n;
        if kept > 0 || !stop.GoesOn? {
          assert |all| - |inner.rest| == taken;
          return;
        }
      }
    }
  }

  /** Reading until a stop, through buffers of any sizes, gives exactly the bytes
      kept of what was taken, in order: of all there was when it stopped at the
      end, and of what came before a failure otherwise. */
  method ReadAll(s: Skipper, sizes: seq<nat>) returns (out: seq<char>, stop: Stop)
    requires forall i | 0 <= i < |sizes| :: sizes[i] > 0
    modifies s.inner
    ensures !stop.GoesOn? && |s.inner.rest| <= |old(s.inner.rest)|
    ensures stop.Ends? ==> out == Kept(old(s.inner.rest))
    ensures old(s.inner.rest)[..|old(s.inner.rest)| - |s.inner.rest|] + s.inner.rest == old(s.inner.rest)
    ensures out == Kept(old(s.inner.rest)[..|old(s.inner.rest)| - |s.inner.rest|])
  {
    hide Kept;
    ghost var all := s.inner.rest;
    out := [];
    KeptOfNone();
    assert all[..0] == [];
    stop := GoesOn;
    var turn := 0;
    while stop.GoesOn?
      invariant |s.inner.rest| <= |all| && s.inner.rest == all[|all| - |s.inner.rest|..]
      invariant out == Kept(all[..|all| - |s.inner.rest|])
      invariant stop.Ends? ==> s.inner.rest == []
      decreases stop.GoesOn?, |s.inner.rest| + |s.inner.answers|
    {
      var p := new char[if turn < |sizes| then sizes[turn] else 512];
      ghost var before := |all| - |s.inner.rest|;
      var kept;
      kept, stop := s.Read(p);
      ghost var after := |all| - |s.inner.rest|;
      assert all[before..][..after - before] == all[before..after];
      assert all[..after] == all[..before] + all[before..after];
      KeptJoins(all[..before], all[before..after]);
      out := out + p[..kept];
      turn := turn + 1;
    }
    assert all[..|all|] == all;
  }
}
