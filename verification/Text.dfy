/** The string operations the modelled code uses, on ASCII letters. */
module Text {

  lemma Regroup<T>(s: seq<T>, t: seq<T>, u: seq<T>)
    ensures s + t + u == s + (t + u)
  {
  }

  /** First position of `c` at or after `i`, or |s|. */
  function IndexFrom(s: string, c: char, i: nat): (r: nat)
    requires i <= |s|
    ensures i <= r <= |s|
    ensures r < |s| ==> s[r] == c
    ensures forall j :: i <= j < r ==> s[j] != c
    decreases |s| - i
  {
    if i == |s| || s[i] == c then i else IndexFrom(s, c, i + 1)
  }

  function IndexOf(s: string, c: char): (r: nat)
    ensures r <= |s|
    ensures r < |s| ==> s[r] == c
    ensures forall j :: 0 <= j < r ==> s[j] != c
  {
    IndexFrom(s, c, 0)
  }

  /** `c` does not occur. */
  predicate Free(s: string, c: char) {
    forall i :: 0 <= i < |s| ==> s[i] != c
  }

  function LowerChar(c: char): char {
    if 'A' <= c <= 'Z' then c + 32 as char else c
  }

  function Lower(s: string): (r: string)
    ensures |r| == |s|
  {
    seq(|s|, i requires 0 <= i < |s| => LowerChar(s[i]))
  }

  predicate HasSuffix(s: string, t: string) {
    |t| <= |s| && s[|s| - |t|..] == t
  }

  lemma IndexOfAppend(s: string, t: string, c: char)
    ensures IndexOf(s, c) < |s| ==> IndexOf(s + t, c) == IndexOf(s, c)
    ensures IndexOf(s, c) == |s| ==> IndexOf(s + t, c) == |s| + IndexOf(t, c)
  {
    var i, j, k := IndexOf(s, c), IndexOf(t, c), IndexOf(s + t, c);
    assert forall n :: 0 <= n < |s| ==> (s + t)[n] == s[n];
    assert |s| <= k < |s + t| ==> t[k - |s|] == c;
    assert j < |t| ==> (s + t)[|s| + j] == t[j];
  }

  lemma LowerTwice(s: string)
    ensures Lower(Lower(s)) == Lower(s)
  {
  }

  /** The characters `trim` strips and `\\s` matches. */
  predicate IsSpace(c: char) {
    var n := c as int;
    || 0x09 <= n <= 0x0D || n == 0x20 || n == 0xA0 || n == 0x1680 || 0x2000 <= n <= 0x200A
    || n == 0x2028 || n == 0x2029 || n == 0x202F || n == 0x205F || n == 0x3000 || n == 0xFEFF
  }

  function TrimStart(s: string): string {
    if s != "" && IsSpace(s[0]) then TrimStart(s[1..]) else s
  }

  function TrimEnd(s: string): string {
    if s != "" && IsSpace(s[|s| - 1]) then TrimEnd(s[..|s| - 1]) else s
  }

  function Trim(s: string): string {
    TrimEnd(TrimStart(s))
  }

  function RemoveSpaces(s: string): string {
    if s == "" then "" else (if IsSpace(s[0]) then "" else [s[0]]) + RemoveSpaces(s[1..])
  }

  predicate NoSpace(s: string) {
    forall i :: 0 <= i < |s| ==> !IsSpace(s[i])
  }

  lemma TrimNoSpace(s: string)
    requires s != "" ==> !IsSpace(s[0]) && !IsSpace(s[|s| - 1])
    ensures Trim(s) == s
  {
  }

  lemma {:induction false} RemoveSpacesNoSpace(s: string)
    requires NoSpace(s)
    ensures RemoveSpaces(s) == s
  {
    if s != "" {
      RemoveSpacesNoSpace(s[1..]);
    }
  }

  lemma RemoveSpacesCons(c: char, s: string)
    ensures RemoveSpaces([c] + s) == (if IsSpace(c) then "" else [c]) + RemoveSpaces(s)
  {
    assert ([c] + s)[1..] == s;
  }

  lemma {:induction false} RemoveSpacesAppend(s: string, t: string)
    ensures RemoveSpaces(s + t) == RemoveSpaces(s) + RemoveSpaces(t)
  {
    hide IsSpace;
    if s == "" {
      assert s + t == t;
    } else {
      var c, r := s[0], s[1..];
      RemoveSpacesAppend(r, t);
      RemoveSpacesCons(c, r);
      RemoveSpacesCons(c, r + t);
      hide RemoveSpaces;
      assert s == [c] + r;
      Regroup([c], r, t);
      var kept := if IsSpace(c) then "" else [c];
      Regroup(kept, RemoveSpaces(r), RemoveSpaces(t));
    }
  }

  lemma {:induction false} RemoveSpacesTrimEnd(s: string)
    ensures RemoveSpaces(TrimEnd(s)) == RemoveSpaces(s)
  {
    if s != "" && IsSpace(s[|s| - 1]) {
      var t := s[..|s| - 1];
      RemoveSpacesTrimEnd(t);
      RemoveSpacesAppend(t, [s[|s| - 1]]);
      assert s == t + [s[|s| - 1]];
      assert RemoveSpaces([s[|s| - 1]]) == "" by {
        assert [s[|s| - 1]][1..] == "";
      }
    }
  }

  /** A character that is not white space keeps the two ends of a trim apart. */
  lemma {:induction false} TrimAround(pre: string, c: char, post: string)
    requires !IsSpace(c)
    ensures Trim(pre + [c] + post) == TrimStart(pre) + [c] + TrimEnd(post)
  {
    TrimStartAround(pre, [c] + post);
    assert pre + [c] + post == pre + ([c] + post);
    TrimEndAround(TrimStart(pre) + [c], post);
    assert TrimStart(pre) + ([c] + post) == TrimStart(pre) + [c] + post;
  }

  lemma {:induction false} TrimStartAround(pre: string, rest: string)
    requires rest != "" && !IsSpace(rest[0])
    ensures TrimStart(pre + rest) == TrimStart(pre) + rest
  {
    if pre == "" {
      assert pre + rest == rest;
    } else if IsSpace(pre[0]) {
      TrimStartAround(pre[1..], rest);
      assert (pre + rest)[1..] == pre[1..] + rest;
    }
  }

  lemma {:induction false} TrimEndAround(front: string, post: string)
    requires front != "" && !IsSpace(front[|front| - 1])
    ensures TrimEnd(front + post) == front + TrimEnd(post)
  {
    if post == "" {
      assert front + post == front;
    } else if IsSpace(post[|post| - 1]) {
      TrimEndAround(front, post[..|post| - 1]);
      assert (front + post)[..|front + post| - 1] == front + post[..|post| - 1];
    }
  }

  function Split(s: string, c: char): (r: seq<string>)
    ensures |r| > 0
    decreases |s|
  {
    var i := IndexOf(s, c);
    if i == |s| then [s] else [s[..i]] + Split(s[i + 1..], c)
  }

  lemma {:induction false} PiecesAreFree(s: string, c: char)
    ensures forall piece <- Split(s, c) :: Free(piece, c)
    decreases |s|
  {
    var i := IndexOf(s, c);
    if i < |s| {
      PiecesAreFree(s[i + 1..], c);
    }
  }

  function Joined(pieces: seq<string>, c: char): string
    requires pieces != []
  {
    if |pieces| == 1 then pieces[0] else pieces[0] + [c] + Joined(pieces[1..], c)
  }

  /** The pieces of a split, joined again, are the text. */
  lemma {:induction false} JoinedSplit(s: string, c: char)
    ensures Joined(Split(s, c), c) == s
    decreases |s|
  {
    var i := IndexOf(s, c);
    if i < |s| {
      JoinedSplit(s[i + 1..], c);
      assert s == s[..i] + [c] + s[i + 1..];
      assert ([s[..i]] + Split(s[i + 1..], c))[1..] == Split(s[i + 1..], c);
    }
  }

  lemma LowerAt(s: string, i: nat)
    requires i < |s|
    ensures 'A' <= s[i] <= 'Z' ==> Lower(s)[i] as int == s[i] as int + 32
    ensures !('A' <= s[i] <= 'Z') ==> Lower(s)[i] == s[i]
  {
  }

  lemma SpaceCodes(c: char)
    ensures IsSpace(c) <==> c as int in [
      0x09, 0x0A, 0x0B, 0x0C, 0x0D, 0x20, 0xA0, 0x1680, 0x2000, 0x2001, 0x2002, 0x2003, 0x2004, 0x2005, 0x2006, 0x2007, 0x2008,
      0x2009, 0x200A, 0x2028, 0x2029, 0x202F, 0x205F, 0x3000, 0xFEFF]
  {
  }

  lemma SuffixMeans(s: string, t: string)
    ensures HasSuffix(s, t) <==> exists front: string :: s == front + t
  {
    if HasSuffix(s, t) {
      assert s == s[..|s| - |t|] + t;
    }
  }

  predicate AllSpace(s: string) {
    forall i :: 0 <= i < |s| ==> IsSpace(s[i])
  }

  lemma {:induction false} TrimStartCuts(s: string) returns (cut: string)
    ensures s == cut + TrimStart(s) && AllSpace(cut)
    ensures TrimStart(s) != "" ==> !IsSpace(TrimStart(s)[0])
  {
    if s != "" && IsSpace(s[0]) {
      cut := TrimStartCuts(s[1..]);
      cut := [s[0]] + cut;
    } else {
      cut := "";
    }
  }

  lemma {:induction false} TrimEndCuts(s: string) returns (cut: string)
    ensures s == TrimEnd(s) + cut && AllSpace(cut)
    ensures TrimEnd(s) != "" ==> !IsSpace(TrimEnd(s)[|TrimEnd(s)| - 1])
  {
    if s != "" && IsSpace(s[|s| - 1]) {
      cut := TrimEndCuts(s[..|s| - 1]);
      cut := cut + [s[|s| - 1]];
    } else {
      cut := "";
    }
  }

  /** Trimming cuts white space off both ends, and all of it. */
  lemma TrimCuts(s: string) returns (front: string, back: string)
    ensures s == front + Trim(s) + back && AllSpace(front) && AllSpace(back)
    ensures var t := Trim(s); t != "" ==> !IsSpace(t[0]) && !IsSpace(t[|t| - 1])
  {
    front := TrimStartCuts(s);
    back := TrimEndCuts(TrimStart(s));
    Regroup(front, Trim(s), back);
    assert Trim(s) != "" ==> Trim(s)[0] == TrimStart(s)[0];
  }
}
