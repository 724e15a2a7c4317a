/**
 The string algorithms of the extensions header: string_replace, split, join. What they compute is told in terms of
 the pieces of a text: the parts left when the leftmost non-overlapping occurrences of a pattern are cut out.
 */
module Text {
  import opened Wrappers

  predicate Occurs(s: string, pat: string, i: int) {
    0 <= i && i + |pat| <= |s| && s[i..i + |pat|] == pat
  }

  /** std::string::find: the first occurrence at or after `start`. */
  function Find(s: string, pat: string, start: nat): (r: Option<nat>)
    ensures r.Some? ==> start <= r.value && Occurs(s, pat, r.value) && forall j :: start <= j < r.value ==> !Occurs(s, pat, j)
    ensures r.None? ==> forall j :: start <= j ==> !Occurs(s, pat, j)
    decreases |s| - start
  {
    if start + |pat| > |s| then None else if Occurs(s, pat, start) then Some(start) else Find(s, pat, start + 1)
  }

  /** The parts of s between the leftmost non-overlapping occurrences of pat. */
  function Pieces(s: string, pat: string): (ps: seq<string>)
    requires pat != ""
    ensures ps != []
    decreases |s|
  {
    match Find(s, pat, 0)
    case None => [s]
    case Some(i) => [s[..i]] + Pieces(s[i + |pat|..], pat)
  }

  function Glue(ps: seq<string>, sep: string): string {
    if ps == [] then "" else if |ps| == 1 then ps[0] else ps[0] + sep + Glue(ps[1..], sep)
  }

  /** The first occurrence of pat in p + pat is the appended one. */
  predicate EndsAtFirst(p: string, pat: string) {
    Find(p + pat, pat, 0) == Some(|p|)
  }

  /** The parts are cut at the leftmost occurrences: each one but the last ends where the first occurrence begins,
      and the last holds none. */
  predicate LeftmostCut(s: string, pat: string, ps: seq<string>) {
    && ps != [] && Glue(ps, pat) == s
    && (forall i :: 0 <= i < |ps| - 1 ==> EndsAtFirst(ps[i], pat))
    && Find(ps[|ps| - 1], pat, 0).None?
  }

  lemma FindIsAt(s: string, pat: string, i: nat)
    requires Occurs(s, pat, i) && forall j :: 0 <= j < i ==> !Occurs(s, pat, j)
    ensures Find(s, pat, 0) == Some(i)
  {
  }

  /** The first occurrence depends only on the text up to its end. */
  lemma FindInPrefix(p: string, pat: string, rest: string)
    ensures EndsAtFirst(p, pat) <==> Find(p + pat + rest, pat, 0) == Some(|p|)
  {
    var s := p + pat + rest;
    forall j | 0 <= j <= |p| ensures Occurs(s, pat, j) <==> Occurs(p + pat, pat, j) {
      assert s[j..j + |pat|] == (p + pat)[j..j + |pat|];
    }
    assert Occurs(p + pat, pat, |p|);
    if Find(s, pat, 0) == Some(|p|) {
      FindIsAt(p + pat, pat, |p|);
    }
    if EndsAtFirst(p, pat) {
      FindIsAt(s, pat, |p|);
    }
  }

  /** Pieces is the leftmost cut. */
  lemma {:induction false} PiecesAreLeftmost(s: string, pat: string)
    requires pat != ""
    ensures LeftmostCut(s, pat, Pieces(s, pat))
    decreases |s|
  {
    var r := Find(s, pat, 0);
    if r.Some? {
      var i := r.value;
      PiecesAreLeftmost(s[i + |pat|..], pat);
      assert s == s[..i] + pat + s[i + |pat|..];
      FindInPrefix(s[..i], pat, s[i + |pat|..]);
      assert Pieces(s, pat)[1..] == Pieces(s[i + |pat|..], pat);
    }
  }

  lemma RestOfCut(s: string, pat: string, ps: seq<string>, rest: string)
    requires pat != "" && LeftmostCut(s, pat, ps) && |ps| > 1 && rest == Glue(ps[1..], pat)
    ensures LeftmostCut(rest, pat, ps[1..]) && s == ps[0] + pat + rest
  {
    assert ps[1..][|ps| - 2] == ps[|ps| - 1];
    assert forall i :: 0 <= i < |ps| - 2 ==> ps[1..][i] == ps[i + 1];
  }

  lemma PiecesFrom(s: string, pat: string, first: string, rest: string)
    requires pat != "" && s == first + pat + rest && EndsAtFirst(first, pat)
    ensures Pieces(s, pat) == [first] + Pieces(rest, pat)
  {
    FindInPrefix(first, pat, rest);
    assert s[|first| + |pat|..] == rest && s[..|first|] == first;
  }

  lemma OnePiece(s: string, pat: string, ps: seq<string>)
    requires pat != "" && LeftmostCut(s, pat, ps) && |ps| == 1
    ensures ps == Pieces(s, pat)
  {
    assert ps == [s];
  }

  /** The leftmost cut is unique. */
  lemma {:induction false} LeftmostCutIsUnique(s: string, pat: string, ps: seq<string>)
    requires pat != "" && LeftmostCut(s, pat, ps)
    ensures ps == Pieces(s, pat)
    decreases |ps|
  {
    if |ps| == 1 {
      OnePiece(s, pat, ps);
    } else {
      var rest := Glue(ps[1..], pat);
      RestOfCut(s, pat, ps, rest);
      PiecesFrom(s, pat, ps[0], rest);
      LeftmostCutIsUnique(rest, pat, ps[1..]);
    }
  }

  // ---------------------------------------------------------------- string_replace

  function Replaced(s: string, from: string, to: string): string {
    if from == "" then s else Glue(Pieces(s, from), to)
  }

  /** The loop's state: the text before `startPos` is done, the text after it is a suffix of the original. */
  ghost predicate HalfReplaced(s: string, from: string, to: string, str: string, startPos: nat, consumed: nat)
    requires from != ""
  {
    && startPos <= |str| && consumed <= |s| && str[startPos..] == s[consumed..]
    && str[..startPos] + Replaced(str[startPos..], from, to) == Replaced(s, from, to)
  }

  /** The loop edits the string in place. It ends although the string may grow, because the text after `startPos`
      gets shorter. */
  method StringReplace(s: string, from: string, to: string) returns (str: string)
    ensures str == Replaced(s, from, to)
    ensures from == "" ==> str == s
  {
    str := s;
    if from == "" {
      return;
    }
    var startPos: nat := 0;
    ghost var consumed: nat := 0;
    var pos := Find(str, from, startPos);
    while pos.Some?
      invariant HalfReplaced(s, from, to, str, startPos, consumed)
      invariant pos == Find(str, from, startPos)
      decreases |s| - consumed
    {
      var at := pos.value;
      var next := str[..at] + to + str[at + |from|..];
      HalfReplacedStep(s, from, to, str, startPos, consumed, at, next);
      consumed := consumed + (at - startPos) + |from|;
      str, startPos := next, at + |to|;
      pos := Find(str, from, startPos);
    }
    HalfReplacedEnd(s, from, to, str, startPos, consumed);
  }

  lemma HalfReplacedStep(s: string, from: string, to: string, str: string, startPos: nat, consumed: nat, pos: nat, str': string)
    requires from != "" && HalfReplaced(s, from, to, str, startPos, consumed)
    requires Find(str, from, startPos) == Some(pos) && str' == str[..pos] + to + str[pos + |from|..]
    ensures HalfReplaced(s, from, to, str', pos + |to|, consumed + (pos - startPos) + |from|)
  {
    ReplaceStep(str, from, to, startPos, pos, str');
    SuffixOfSuffix(s, consumed, str, startPos, pos + |from|);
  }

  lemma HalfReplacedEnd(s: string, from: string, to: string, str: string, startPos: nat, consumed: nat)
    requires from != "" && HalfReplaced(s, from, to, str, startPos, consumed) && Find(str, from, startPos).None?
    ensures str == Replaced(s, from, to)
  {
    FindInSuffix(str, from, startPos);
    assert str[..startPos] + str[startPos..] == str;
  }

  lemma SuffixOfSuffix(s: string, i: nat, t: string, j: nat, k: nat)
    requires i <= |s| && j <= k <= |t| && t[j..] == s[i..]
    ensures i + k - j <= |s| && t[k..] == s[i + k - j..]
  {
    assert t[j..][k - j..] == t[k..];
    assert s[i..][k - j..] == s[i + k - j..];
  }

  lemma SliceOfSuffix(s: string, start: nat, i: nat, j: nat)
    requires start <= |s| && i <= j <= |s| - start
    ensures s[start..][..i] == s[start..start + i] && s[start..][j..] == s[start + j..]
  {
  }

  lemma ReplacedOnceAt(str: string, from: string, to: string, startPos: nat, pos: nat)
    requires from != "" && startPos <= |str| && Find(str, from, startPos) == Some(pos)
    ensures Replaced(str[startPos..], from, to) == str[startPos..pos] + to + Replaced(str[pos + |from|..], from, to)
  {
    FindInSuffix(str, from, startPos);
    SliceOfSuffix(str, startPos, pos - startPos, pos - startPos + |from|);
    ReplacedOnce(str[startPos..], from, to, str[startPos..pos], str[pos + |from|..]);
  }

  lemma Regroup(str: string, to: string, startPos: nat, pos: nat, rest: string)
    requires startPos <= pos <= |str|
    ensures str[..startPos] + (str[startPos..pos] + to + rest) == (str[..pos] + to) + rest
  {
    assert str[..startPos] + str[startPos..pos] == str[..pos];
  }

  /** One round of the loop keeps what is done plus what is still to be replaced. */
  lemma ReplaceStep(str: string, from: string, to: string, startPos: nat, pos: nat, str': string)
    requires from != "" && startPos <= |str| && Find(str, from, startPos) == Some(pos)
    requires str' == str[..pos] + to + str[pos + |from|..]
    ensures str'[pos + |to|..] == str[pos + |from|..]
    ensures str'[..pos + |to|] + Replaced(str'[pos + |to|..], from, to) == str[..startPos] + Replaced(str[startPos..], from, to)
  {
    ReplacedOnceAt(str, from, to, startPos, pos);
    assert str'[pos + |to|..] == str[pos + |from|..];
    assert str'[..pos + |to|] == str[..pos] + to;
    Regroup(str, to, startPos, pos, Replaced(str[pos + |from|..], from, to));
  }

  lemma FindInSuffix(s: string, pat: string, start: nat)
    requires start <= |s|
    ensures var r := Find(s[start..], pat, 0); var r' := Find(s, pat, start);
      (r'.None? ==> r.None?) && (r'.Some? ==> r == Some(r'.value - start))
  {
    var t := s[start..];
    forall j | 0 <= j ensures Occurs(t, pat, j) <==> Occurs(s, pat, start + j) {
      if j + |pat| <= |t| {
        assert t[j..j + |pat|] == s[start + j..start + j + |pat|];
      }
    }
    var r' := Find(s, pat, start);
    if r'.Some? {
      FindIsAt(t, pat, r'.value - start);
    }
  }

  lemma GlueFirst(p: string, ps: seq<string>, sep: string)
    requires ps != []
    ensures Glue([p] + ps, sep) == p + sep + Glue(ps, sep)
  {
    assert ([p] + ps)[1..] == ps;
  }

  lemma ReplacedOnce(s: string, from: string, to: string, first: string, rest: string)
    requires from != "" && Find(s, from, 0) == Some(|first|) && first == s[..|first|] && rest == s[|first| + |from|..]
    ensures Replaced(s, from, to) == first + to + Replaced(rest, from, to)
  {
    assert Pieces(s, from) == [first] + Pieces(rest, from);
    GlueFirst(first, Pieces(rest, from), to);
  }

  lemma {:induction false} GlueLength(ps: seq<string>, a: string, b: string)
    requires ps != []
    ensures |Glue(ps, b)| == |Glue(ps, a)| + (|ps| - 1) * (|b| - |a|)
  {
    if |ps| > 1 {
      GlueLength(ps[1..], a, b);
      assert (|ps| - 1) * (|b| - |a|) == (|ps| - 2) * (|b| - |a|) + (|b| - |a|);
    }
  }

  /** What string_replace promises: the text is cut at the leftmost non-overlapping occurrences of `from` and put
      together again with `to`; with k occurrences its length changes by k * (|to| - |from|). */
  lemma ReplacedMeaning(s: string, from: string, to: string) returns (ps: seq<string>)
    requires from != ""
    ensures LeftmostCut(s, from, ps) && Replaced(s, from, to) == Glue(ps, to)
    ensures |Replaced(s, from, to)| == |s| + (|ps| - 1) * (|to| - |from|)
  {
    ps := LeftmostPieces(s, from);
    ReplacedLength(s, from, to, ps);
  }

  lemma LeftmostPieces(s: string, pat: string) returns (ps: seq<string>)
    requires pat != ""
    ensures ps == Pieces(s, pat) && LeftmostCut(s, pat, ps)
  {
    ps := Pieces(s, pat);
    PiecesAreLeftmost(s, pat);
  }

  lemma ReplacedLength(s: string, from: string, to: string, ps: seq<string>)
    requires from != "" && ps == Pieces(s, from) && Glue(ps, from) == s
    ensures |Replaced(s, from, to)| == |s| + (|ps| - 1) * (|to| - |from|)
  {
    GlueLength(ps, from, to);
  }

  lemma GluedIsCut(ps: seq<string>, sep: string)
    requires ps != [] && (forall i :: 0 <= i < |ps| - 1 ==> EndsAtFirst(ps[i], sep)) && Find(ps[|ps| - 1], sep, 0).None?
    ensures LeftmostCut(Glue(ps, sep), sep, ps)
  {
  }

  /** Replacing back restores the text if the new text first occurs at the end of each piece that it is put behind, and
      not at all in the last one. */
  lemma ReplaceBack(s: string, from: string, to: string)
    requires from != "" && to != ""
    requires var ps := Pieces(s, from);
      (forall i :: 0 <= i < |ps| - 1 ==> EndsAtFirst(ps[i], to)) && Find(ps[|ps| - 1], to, 0).None?
    ensures Replaced(Replaced(s, from, to), to, from) == s
  {
    GluedIsCut(Pieces(s, from), to);
    LeftmostCutIsUnique(Replaced(s, from, to), to, Pieces(s, from));
    PiecesAreLeftmost(s, from);
  }

  // ---------------------------------------------------------------- split and join

  /** getline leaves nothing behind a final delimiter: the last piece is a token only if it is not empty. */
  function SplitTokens(s: string, delim: char): seq<string> {
    var ps := Pieces(s, [delim]);
    if ps[|ps| - 1] == "" then ps[..|ps| - 1] else ps
  }

  ghost predicate HalfSplit(s: string, delim: char, tokens: seq<string>, pos: nat) {
    pos <= |s| && SplitTokens(s, delim) == tokens + SplitTokens(s[pos..], delim)
  }

  method Split(s: string, delim: char) returns (tokens: seq<string>)
    ensures tokens == SplitTokens(s, delim)
    ensures s == "" ==> tokens == []
  {
    tokens := [];
    var pos: nat := 0;
    while pos < |s|
      invariant HalfSplit(s, delim, tokens, pos)
      decreases |s| - pos
    {
      var end := Find(s, [delim], pos).GetOr(|s|);
      HalfSplitStep(s, delim, tokens, pos, end);
      tokens := tokens + [s[pos..end]];
      pos := if end < |s| then end + 1 else end;
    }
    assert SplitTokens(s[pos..], delim) == [];
  }

  lemma SplitFrom(s: string, delim: char, pos: nat, end: nat)
    requires pos < |s| && end == Find(s, [delim], pos).GetOr(|s|)
    ensures pos <= end <= |s|
    ensures SplitTokens(s[pos..], delim) == [s[pos..end]] + SplitTokens(s[if end < |s| then end + 1 else end..], delim)
  {
    FindInSuffix(s, [delim], pos);
    if end < |s| {
      SliceOfSuffix(s, pos, end - pos, end - pos + 1);
      SplitOnce(s[pos..], delim, s[pos..end], s[end + 1..]);
    } else {
      SplitFromLast(s, delim, pos);
    }
  }

  lemma SplitFromLast(s: string, delim: char, pos: nat)
    requires pos < |s| && Find(s[pos..], [delim], 0).None?
    ensures SplitTokens(s[pos..], delim) == [s[pos..|s|]] + SplitTokens(s[|s|..], delim)
  {
    SplitLast(s[pos..], delim);
    assert s[pos..|s|] == s[pos..] && s[|s|..] == "";
  }

  lemma HalfSplitStep(s: string, delim: char, tokens: seq<string>, pos: nat, end: nat)
    requires HalfSplit(s, delim, tokens, pos) && pos < |s| && end == Find(s, [delim], pos).GetOr(|s|)
    ensures pos <= end <= |s|
    ensures HalfSplit(s, delim, tokens + [s[pos..end]], if end < |s| then end + 1 else end)
  {
    SplitFrom(s, delim, pos, end);
    Append(tokens, s[pos..end], SplitTokens(s[if end < |s| then end + 1 else end..], delim));
  }

  lemma Append(tokens: seq<string>, token: string, rest: seq<string>)
    ensures tokens + ([token] + rest) == (tokens + [token]) + rest
  {
  }

  lemma SplitLast(s: string, delim: char)
    requires s != "" && Find(s, [delim], 0).None?
    ensures SplitTokens(s, delim) == [s] && SplitTokens("", delim) == []
  {
  }

  lemma SplitOnce(s: string, delim: char, first: string, rest: string)
    requires Find(s, [delim], 0) == Some(|first|) && first == s[..|first|] && rest == s[|first| + 1..]
    ensures SplitTokens(s, delim) == [first] + SplitTokens(rest, delim)
  {
    assert Pieces(s, [delim]) == [first] + Pieces(rest, [delim]);
  }

  /** What split returns, told by the text: no token holds the delimiter, and with the delimiter between the tokens, and
      behind the last one if the text ends in it, they are the text. */
  lemma SplitMeaning(s: string, delim: char)
    ensures s == "" <==> SplitTokens(s, delim) == []
    ensures DelimiterFree(SplitTokens(s, delim), delim)
    ensures s != "" ==> s == Glue(SplitTokens(s, delim), [delim]) + if s[|s| - 1] == delim then [delim] else ""
  {
    var ps := Pieces(s, [delim]);
    PiecesAreLeftmost(s, [delim]);
    forall k | 0 <= k < |ps| ensures delim !in ps[k] {
      DelimiterFreeEnds(ps[k], delim);
    }
    TokensMeaning(s, delim, ps, ps[..|ps| - 1], ps[|ps| - 1], SplitTokens(s, delim));
  }

  lemma LastEmpty(init: seq<string>, delim: char)
    requires init != []
    ensures Glue(init + [""], [delim]) == Glue(init, [delim]) + [delim]
  {
    GlueSnoc(init, "", [delim]);
    assert Glue(init, [delim]) + [delim] + "" == Glue(init, [delim]) + [delim];
  }

  lemma TokensMeaning(s: string, delim: char, ps: seq<string>, init: seq<string>, last: string, tokens: seq<string>)
    requires ps == init + [last] && s == Glue(ps, [delim]) && delim !in last
    requires tokens == if last == "" then init else ps
    ensures s == "" <==> tokens == []
    ensures s != "" ==> s == Glue(tokens, [delim]) + if s[|s| - 1] == delim then [delim] else ""
  {
    if last != "" {
      GlueEnd(ps, [delim]);
      assert s + "" == s;
    } else if init != [] {
      LastEmpty(init, delim);
    }
  }

  /** The join loop appends the delimiter only when the result is no longer empty. */
  function Joined(tokens: seq<string>, delim: string): string {
    if tokens == [] then ""
    else
      var r := Joined(tokens[..|tokens| - 1], delim);
      (if r == "" then "" else r + delim) + tokens[|tokens| - 1]
  }

  method Join(tokens: seq<string>, delim: string) returns (result: string)
    ensures result == Joined(tokens, delim)
  {
    result := "";
    for k := 0 to |tokens|
      invariant result == Joined(tokens[..k], delim)
    {
      assert tokens[..k + 1][..k] == tokens[..k];
      if result != "" {
        result := result + delim;
      }
      result := result + tokens[k];
    }
    assert tokens[..|tokens|] == tokens;
  }

  function DropEmpty(tokens: seq<string>): seq<string> {
    if tokens != [] && tokens[0] == "" then DropEmpty(tokens[1..]) else tokens
  }

  lemma {:induction false} GlueSnoc(ps: seq<string>, p: string, sep: string)
    requires ps != []
    ensures Glue(ps + [p], sep) == Glue(ps, sep) + sep + p
  {
    assert (ps + [p])[1..] == ps[1..] + [p];
    if |ps| > 1 {
      GlueSnoc(ps[1..], p, sep);
    }
  }

  lemma {:induction false} GlueNotEmpty(ps: seq<string>, sep: string)
    requires ps != [] && ps[0] != ""
    ensures Glue(ps, sep) != ""
  {
  }

  lemma {:induction false} DropEmptySnoc(ps: seq<string>, p: string)
    ensures DropEmpty(ps + [p]) == if DropEmpty(ps) != [] then DropEmpty(ps) + [p] else if p == "" then [] else [p]
    ensures DropEmpty(ps) != [] ==> DropEmpty(ps)[0] != ""
  {
    if ps != [] {
      assert (ps + [p])[1..] == ps[1..] + [p];
      DropEmptySnoc(ps[1..], p);
    }
  }

  /** What the skipped delimiters amount to: leading empty tokens leave no trace. */
  lemma {:induction false} JoinedDropsLeadingEmpty(tokens: seq<string>, delim: string)
    ensures Joined(tokens, delim) == Glue(DropEmpty(tokens), delim)
  {
    if tokens != [] {
      var init, last := tokens[..|tokens| - 1], tokens[|tokens| - 1];
      JoinedDropsLeadingEmpty(init, delim);
      JoinedStep(tokens, init, last, delim);
    }
  }

  lemma JoinedStep(tokens: seq<string>, init: seq<string>, last: string, delim: string)
    requires tokens == init + [last] && Joined(init, delim) == Glue(DropEmpty(init), delim)
    ensures Joined(tokens, delim) == Glue(DropEmpty(tokens), delim)
  {
    DropEmptySnoc(init, last);
    JoinedLast(tokens, init, last, delim);
    JoinedNext(DropEmpty(init), last, delim);
  }

  lemma JoinedLast(tokens: seq<string>, init: seq<string>, last: string, delim: string)
    requires tokens == init + [last]
    ensures Joined(tokens, delim) == (if Joined(init, delim) == "" then "" else Joined(init, delim) + delim) + last
  {
    assert tokens[..|tokens| - 1] == init;
  }

  lemma JoinedNext(kept: seq<string>, last: string, delim: string)
    requires kept != [] ==> kept[0] != ""
    ensures (if Glue(kept, delim) == "" then "" else Glue(kept, delim) + delim) + last
         == Glue(if kept != [] then kept + [last] else if last == "" then [] else [last], delim)
  {
    if kept != [] {
      GlueNotEmpty(kept, delim);
      GlueSnoc(kept, last, delim);
    }
  }

  /** The text without its leading delimiters. */
  function TrimmedStart(s: string, delim: char): string {
    if s != "" && s[0] == delim then TrimmedStart(s[1..], delim) else s
  }

  function WithoutFinal(s: string, delim: char): string {
    if s != "" && s[|s| - 1] == delim then s[..|s| - 1] else s
  }

  predicate DelimiterFree(tokens: seq<string>, delim: char) {
    forall k :: 0 <= k < |tokens| ==> delim !in tokens[k]
  }

  lemma OccursChar(s: string, c: char, i: int)
    ensures Occurs(s, [c], i) <==> 0 <= i < |s| && s[i] == c
  {
    if 0 <= i < |s| {
      assert s[i..i + 1] == [s[i]];
    }
  }

  lemma DelimiterFreeEnds(p: string, delim: char)
    ensures EndsAtFirst(p, [delim]) <==> delim !in p
    ensures Find(p, [delim], 0).None? <==> delim !in p
  {
    if delim in p {
      var i :| 0 <= i < |p| && p[i] == delim;
      OccursChar(p, delim, i);
      OccursChar(p + [delim], delim, i);
    } else {
      OccursChar(p + [delim], delim, |p|);
      forall j | 0 <= j < |p| ensures !Occurs(p + [delim], [delim], j) && !Occurs(p, [delim], j) {
        OccursChar(p + [delim], delim, j);
        OccursChar(p, delim, j);
      }
      FindIsAt(p + [delim], [delim], |p|);
    }
  }

  lemma {:induction false} PiecesOfGlue(tokens: seq<string>, delim: char)
    requires tokens != [] && DelimiterFree(tokens, delim)
    ensures Pieces(Glue(tokens, [delim]), [delim]) == tokens
  {
    forall i | 0 <= i < |tokens| ensures EndsAtFirst(tokens[i], [delim]) && Find(tokens[i], [delim], 0).None? {
      DelimiterFreeEnds(tokens[i], delim);
    }
    LeftmostCutIsUnique(Glue(tokens, [delim]), [delim], tokens);
  }

  /** split undoes join exactly on the lists whose first and last tokens are not empty. */
  lemma SplitOfJoin(tokens: seq<string>, delim: char)
    requires tokens != [] && DelimiterFree(tokens, delim)
    ensures SplitTokens(Joined(tokens, [delim]), delim) == tokens
       <==> tokens[0] != "" && tokens[|tokens| - 1] != ""
  {
    JoinedDropsLeadingEmpty(tokens, [delim]);
    var rest := DropEmpty(tokens);
    DropEmptyIsSuffix(tokens);
    if rest == [] {
      assert SplitTokens("", delim) == [];
    } else {
      PiecesOfGlue(rest, delim);
    }
  }

  lemma {:induction false} DropEmptyIsSuffix(tokens: seq<string>)
    ensures |DropEmpty(tokens)| <= |tokens| && DropEmpty(tokens) == tokens[|tokens| - |DropEmpty(tokens)|..]
    ensures DropEmpty(tokens) == tokens <==> tokens == [] || tokens[0] != ""
  {
    if tokens != [] && tokens[0] == "" {
      DropEmptyIsSuffix(tokens[1..]);
    }
  }

  lemma {:induction false} PiecesOfTrimmed(s: string, delim: char)
    ensures TrimmedStart(s, delim) != "" ==>
              Pieces(TrimmedStart(s, delim), [delim]) == DropEmpty(Pieces(s, [delim]))
    ensures TrimmedStart(s, delim) == "" ==> DropEmpty(Pieces(s, [delim])) == []
    decreases s
  {
    if s != "" && s[0] == delim {
      FindIsAt(s, [delim], 0);
      assert Pieces(s, [delim]) == [""] + Pieces(s[1..], [delim]);
      PiecesOfTrimmed(s[1..], delim);
    } else if s != "" {
      var r := Find(s, [delim], 0);
      assert Pieces(s, [delim])[0] != "";
    }
  }

  lemma {:induction false} GlueEnd(ps: seq<string>, sep: string)
    requires ps != [] && ps[|ps| - 1] != ""
    ensures Glue(ps, sep) != "" && Glue(ps, sep)[|Glue(ps, sep)| - 1] == ps[|ps| - 1][|ps[|ps| - 1]| - 1]
  {
    if |ps| > 1 {
      GlueEnd(ps[1..], sep);
    }
  }

  lemma GlueDropsFinal(ps: seq<string>, delim: char)
    requires ps != []
    ensures WithoutFinal(Glue(ps + [""], [delim]), delim) == Glue(ps, [delim])
  {
    GlueSnoc(ps, "", [delim]);
    assert Glue(ps, [delim]) + [delim] + "" == Glue(ps, [delim]) + [delim];
  }

  lemma GlueKeepsFinal(ps: seq<string>, delim: char)
    requires ps != [] && ps[|ps| - 1] != "" && Find(ps[|ps| - 1], [delim], 0).None?
    ensures WithoutFinal(Glue(ps, [delim]), delim) == Glue(ps, [delim])
  {
    GlueEnd(ps, [delim]);
    DelimiterFreeEnds(ps[|ps| - 1], delim);
  }

  lemma TrimmedIsGlue(s: string, delim: char)
    ensures TrimmedStart(s, delim) == Glue(DropEmpty(Pieces(s, [delim])), [delim])
  {
    PiecesOfTrimmed(s, delim);
    PiecesAreLeftmost(TrimmedStart(s, delim), [delim]);
  }

  /** join after split loses exactly the leading delimiters and one final delimiter. */
  lemma JoinOfSplit(s: string, delim: char)
    ensures Joined(SplitTokens(s, delim), [delim]) == WithoutFinal(TrimmedStart(s, delim), delim)
  {
    var ps := Pieces(s, [delim]);
    var init, last := ps[..|ps| - 1], ps[|ps| - 1];
    assert ps == init + [last];
    TrimmedIsGlue(s, delim);
    JoinedDropsLeadingEmpty(SplitTokens(s, delim), [delim]);
    DropEmptySnoc(init, last);
    if last != "" {
      PiecesAreLeftmost(s, [delim]);
      GlueKeepsFinal(DropEmpty(ps), delim);
    } else if DropEmpty(init) != [] {
      GlueDropsFinal(DropEmpty(init), delim);
    }
  }
}
