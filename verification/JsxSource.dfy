// The database function template_jsx_source: which react_email_content is a
// JSX source. Comments are taken out in one left-to-right pass; what is left
// must hold something other than whitespace.
module JsxSources {
  import opened Options
  import opened Text

  // Where the first end of a block comment in s starts at or after from.
  function BlockEnd(s: string, from: nat): (r: Option<nat>)
    requires from <= |s|
    ensures r.Some? ==> from <= r.value && r.value + 2 <= |s| && s[r.value] == '*' && s[r.value + 1] == '/'
    decreases |s| - from
  {
    if from + 2 > |s| then None
    else if s[from] == '*' && s[from + 1] == '/' then Some(from)
    else BlockEnd(s, from + 1)
  }

  /** Where the line holding index from ends: its newline, or the end of s. */
  function LineEnd(s: string, from: nat): (r: nat)
    requires from <= |s|
    ensures from <= r <= |s|
    decreases |s| - from
  {
    if from == |s| || s[from] == '\n' then from else LineEnd(s, from + 1)
  }

  // s without its comments. A block comment that is never closed is text.
  function WithoutComments(s: string): (r: string)
    ensures |r| <= |s|
    decreases |s|
  {
    if |s| < 2 then s
    else if s[0] == '/' && s[1] == '*' && BlockEnd(s, 2).Some? then
      WithoutComments(s[BlockEnd(s, 2).value + 2..])
    else if s[0] == '/' && s[1] == '/' then
      WithoutComments(s[LineEnd(s, 2)..])
    else
      [s[0]] + WithoutComments(s[1..])
  }

  predicate IsJsxSource(s: string) {
    exists i | 0 <= i < |WithoutComments(s)| :: !IsBlank(WithoutComments(s)[i])
  }

  /** The JSX source react_email_content holds, or None. */
  function JsxSource(react: string): (r: Option<string>)
    ensures r.Some? ==> r.value == react && IsJsxSource(react)
    ensures react == "" ==> r == None
  {
    if IsJsxSource(react) then Some(react) else None
  }

  /** A line comment goes up to its newline, whatever is in it: the pointer
      comment a seed writes is no source, and what follows is judged alone. */
  lemma {:induction false} LineCommentIsSkipped(line: string, rest: string)
    requires '\n' !in line
    ensures WithoutComments("//" + line) == ""
    ensures WithoutComments("//" + line + "\n" + rest) == WithoutComments("\n" + rest)
    ensures JsxSource("//" + line) == None
  {
    var s := "//" + line;
    LineEndIs(s, 2, |s|);
    assert s[|s|..] == "";
    var t := "//" + line + "\n" + rest;
    LineEndIs(t, 2, |s|);
    assert t[|s|..] == "\n" + rest;
  }

  lemma {:induction false} LineEndIs(s: string, from: nat, end: nat)
    requires from <= end <= |s|
    requires forall i | from <= i < end :: s[i] != '\n'
    requires end == |s| || s[end] == '\n'
    ensures LineEnd(s, from) == end
    decreases |s| - from
  {
    if from < end {
      LineEndIs(s, from + 1, end);
    }
  }

  /** A block comment goes up to the first place that closes it. */
  lemma {:induction false} BlockCommentIsSkipped(body: string, rest: string)
    requires forall i | 0 <= i < |body| - 1 :: !(body[i] == '*' && body[i + 1] == '/')
    ensures WithoutComments("/*" + body + "*/" + rest) == WithoutComments(rest)
  {
    var s := "/*" + body + "*/" + rest;
    BlockEndIs(s, 2, 2 + |body|);
    assert s[2 + |body| + 2..] == rest;
  }

  lemma {:induction false} BlockEndIs(s: string, from: nat, end: nat)
    requires from <= end && end + 2 <= |s|
    requires forall i | from <= i < end :: !(s[i] == '*' && s[i + 1] == '/')
    requires s[end] == '*' && s[end + 1] == '/'
    ensures BlockEnd(s, from) == Some(end)
    decreases end - from
  {
    if from < end {
      BlockEndIs(s, from + 1, end);
    }
  }
}
