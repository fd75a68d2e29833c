/** Lexical path cleaning (go/src/lib9/cleanname.c): what it computes, and the in-place
    rewrite that computes it. */
module CleanName {

  const NUL: char := '\0'

  // ---------------------------------------------------------------- paths and elements

  /** Length of the path element at the front of s. */
  function ElemLen(s: string): (k: nat)
    ensures k <= |s|
    ensures forall i :: 0 <= i < k ==> s[i] != '/'
    ensures k < |s| ==> s[k] == '/'
  {
    if s == [] || s[0] == '/' then 0 else 1 + ElemLen(s[1..])
  }

  /** The non-empty elements of a path. */
  function Elems(s: string): seq<string>
    decreases |s|
  {
    if s == [] then []
    else if s[0] == '/' then Elems(s[1..])
    else [s[..ElemLen(s)]] + Elems(s[ElemLen(s)..])
  }

  predicate Rooted(s: string) { |s| > 0 && s[0] == '/' }

  /** What one element does to the elements kept so far (cleanname.c:51-72). */
  function Keep(rooted: bool, out: seq<string>, e: string): seq<string> {
    if e == "." then out
    else if e == ".." then
      if out != [] && out[|out| - 1] != ".." then out[..|out| - 1]
      else if rooted then out
      else out + [".."]
    else out + [e]
  }

  function KeepAll(rooted: bool, out: seq<string>, es: seq<string>): seq<string>
    decreases |es|
  {
    if es == [] then out else KeepAll(rooted, Keep(rooted, out, es[0]), es[1..])
  }

  function Join(es: seq<string>): string {
    if es == [] then []
    else if |es| == 1 then es[0]
    else Join(es[..|es| - 1]) + "/" + es[|es| - 1]
  }

  function Body(rooted: bool, out: seq<string>): string {
    (if rooted then "/" else "") + Join(out)
  }

  /** The cleaned path. */
  function Clean(s: string): string {
    var out := KeepAll(Rooted(s), [], Elems(s));
    if out == [] && !Rooted(s) then "." else Body(Rooted(s), out)
  }

  // ---------------------------------------------------------------- normal form

  /** A proper element: not empty, not ".", no separator. */
  predicate Proper(e: string) {
    e != [] && e != "." && '/' !in e
  }

  /** Kept elements: proper, with ".." only as a leading run, and not at all after a root. */
  predicate Normal(rooted: bool, out: seq<string>) {
    && (forall i :: 0 <= i < |out| ==> Proper(out[i]))
    && (forall i :: 0 <= i < |out| && out[i] == ".." ==> !rooted && forall j :: 0 <= j < i ==> out[j] == "..")
  }

  lemma KeepNormal(rooted: bool, out: seq<string>, e: string)
    requires Normal(rooted, out) && e != [] && '/' !in e
    ensures Normal(rooted, Keep(rooted, out, e))
  {
  }

  lemma {:induction false} ElemsPlain(s: string)
    ensures forall i :: 0 <= i < |Elems(s)| ==> Elems(s)[i] != [] && '/' !in Elems(s)[i]
    decreases |s|
  {
    if s != [] {
      if s[0] == '/' { ElemsPlain(s[1..]); } else { ElemsPlain(s[ElemLen(s)..]); }
    }
  }

  lemma {:induction false} KeepAllNormal(rooted: bool, out: seq<string>, es: seq<string>)
    requires Normal(rooted, out) && forall i :: 0 <= i < |es| ==> es[i] != [] && '/' !in es[i]
    ensures Normal(rooted, KeepAll(rooted, out, es))
    decreases |es|
  {
    if es != [] {
      KeepNormal(rooted, out, es[0]);
      KeepAllNormal(rooted, Keep(rooted, out, es[0]), es[1..]);
    }
  }

  /** Joining proper elements and splitting again gives them back. */
  lemma {:induction false} ElemsJoin(es: seq<string>)
    requires forall i :: 0 <= i < |es| ==> Proper(es[i])
    ensures Elems(Join(es)) == es
    ensures es != [] ==> Join(es) != [] && Join(es)[0] != '/'
  {
    if |es| == 1 {
      ElemsOne(es[0]);
    } else if |es| > 1 {
      var init, last := es[..|es| - 1], es[|es| - 1];
      ElemsJoin(init);
      ElemsAppend(Join(init), last);
    }
  }

  lemma ElemsOne(e: string)
    requires e != [] && '/' !in e
    ensures Elems(e) == [e]
  {
    assert ElemLen(e) == |e|;
    assert e[..|e|] == e && e[|e|..] == [];
  }

  lemma {:induction false} ElemsAppend(s: string, e: string)
    requires e != [] && '/' !in e
    ensures Elems(s + "/" + e) == Elems(s) + [e]
    decreases |s|
  {
    var t := s + "/" + e;
    if s == [] {
      assert t[1..] == e;
      ElemsOne(e);
    } else if s[0] == '/' {
      assert t[1..] == s[1..] + "/" + e;
      ElemsAppend(s[1..], e);
    } else {
      var k := ElemLen(s);
      ElemLenAppend(s, "/" + e);
      assert t == s + ("/" + e);
      assert t[..k] == s[..k] && t[k..] == s[k..] + "/" + e;
      ElemsAppend(s[k..], e);
    }
  }

  lemma {:induction false} ElemLenAppend(s: string, t: string)
    requires t != [] && t[0] == '/'
    ensures ElemLen(s + t) == ElemLen(s)
  {
    if s == [] {
      assert s + t == t;
    } else if s[0] != '/' {
      assert (s + t)[1..] == s[1..] + t;
      ElemLenAppend(s[1..], t);
    }
  }

  /** The elements of a cleaned path, as the path itself shows them. */
  lemma CleanElems(s: string)
    ensures var out := KeepAll(Rooted(s), [], Elems(s));
            && Normal(Rooted(s), out)
            && Rooted(Clean(s)) == Rooted(s)
            && Elems(Clean(s)) == if out == [] && !Rooted(s) then ["."] else out
  {
    var out := KeepAll(Rooted(s), [], Elems(s));
    ElemsPlain(s);
    KeepAllNormal(Rooted(s), [], Elems(s));
    ElemsJoin(out);
    if out == [] && !Rooted(s) {
      ElemsDot();
    } else if Rooted(s) {
      assert Body(true, out)[1..] == Join(out);
    } else {
      assert Body(false, out) == Join(out);
    }
  }

  lemma ElemsDot()
    ensures Elems(".") == ["."]
  {
    ElemsOne(".");
  }

  /** A cleaned path is in normal form: no empty and no "." elements, ".." only as a leading
      run of an unrooted path, exactly one separator between elements and none at the end. */
  lemma CleanIsNormal(s: string)
    ensures Rooted(Clean(s)) == Rooted(s)
    ensures Clean(s) == "." || (Normal(Rooted(s), Elems(Clean(s))) && Clean(s) == Body(Rooted(s), Elems(Clean(s))))
  {
    CleanElems(s);
  }

  lemma {:induction false} KeepAllOfNormal(rooted: bool, out: seq<string>, es: seq<string>)
    requires Normal(rooted, out + es)
    ensures KeepAll(rooted, out, es) == out + es
    decreases |es|
  {
    if es == [] {
      assert out + es == out;
    } else {
      assert (out + es)[|out|] == es[0];
      assert out != [] ==> (out + es)[|out| - 1] == out[|out| - 1];
      assert Keep(rooted, out, es[0]) == out + [es[0]];
      assert out + [es[0]] + es[1..] == out + es;
      KeepAllOfNormal(rooted, out + [es[0]], es[1..]);
    }
  }

  /** Cleaning twice is cleaning once. */
  lemma CleanIdempotent(s: string)
    ensures Clean(Clean(s)) == Clean(s)
  {
    var out := KeepAll(Rooted(s), [], Elems(s));
    CleanElems(s);
    if out == [] && !Rooted(s) {
      assert KeepAll(false, [], ["."]) == KeepAll(false, Keep(false, [], "."), []);
    } else {
      assert [] + out == out;
      KeepAllOfNormal(Rooted(s), [], out);
    }
  }

  // ---------------------------------------------------------------- meaning

  /** Where one element leads from a directory given as the stack of names from the root. */
  function Walk(dir: seq<string>, e: string): seq<string> {
    if e == "." then dir
    else if e == ".." then (if dir == [] then [] else dir[..|dir| - 1])
    else dir + [e]
  }

  function WalkAll(dir: seq<string>, es: seq<string>): seq<string>
    decreases |es|
  {
    if es == [] then dir else WalkAll(Walk(dir, es[0]), es[1..])
  }

  /** Where a path leads from a directory; a rooted one starts at the root. */
  function Resolve(dir: seq<string>, s: string): seq<string> {
    WalkAll(if Rooted(s) then [] else dir, Elems(s))
  }

  lemma {:induction false} WalkAppend(dir: seq<string>, es: seq<string>, e: string)
    ensures WalkAll(dir, es + [e]) == Walk(WalkAll(dir, es), e)
    decreases |es|
  {
    if es == [] {
      assert [] + [e] == [e];
      assert WalkAll(Walk(dir, e), []) == Walk(dir, e);
      assert [e][1..] == [];
    } else {
      assert (es + [e])[1..] == es[1..] + [e];
      WalkAppend(Walk(dir, es[0]), es[1..], e);
    }
  }

  lemma KeepWalks(rooted: bool, dir: seq<string>, out: seq<string>, e: string)
    requires Normal(rooted, out) && (rooted ==> dir == [])
    ensures WalkAll(dir, Keep(rooted, out, e)) == Walk(WalkAll(dir, out), e)
  {
    if e == ".." && out != [] && out[|out| - 1] != ".." {
      var init, last := out[..|out| - 1], out[|out| - 1];
      assert out == init + [last];
      WalkAppend(dir, init, last);
      assert Proper(last);
    } else if e == ".." && rooted {
      assert out == [];
    } else if e != "." {
      WalkAppend(dir, out, e);
    }
  }

  lemma {:induction false} KeepAllWalks(rooted: bool, dir: seq<string>, out: seq<string>, es: seq<string>)
    requires Normal(rooted, out) && (rooted ==> dir == [])
    requires forall i :: 0 <= i < |es| ==> es[i] != [] && '/' !in es[i]
    ensures WalkAll(dir, KeepAll(rooted, out, es)) == WalkAll(WalkAll(dir, out), es)
    decreases |es|
  {
    if es != [] {
      KeepNormal(rooted, out, es[0]);
      KeepWalks(rooted, dir, out, es[0]);
      KeepAllWalks(rooted, dir, Keep(rooted, out, es[0]), es[1..]);
    }
  }

  /** A cleaned path leads to the same place as the original, from every directory. */
  lemma CleanSameLocation(dir: seq<string>, s: string)
    ensures Resolve(dir, Clean(s)) == Resolve(dir, s)
  {
    var rooted, from := Rooted(s), if Rooted(s) then [] else dir;
    var out := KeepAll(rooted, [], Elems(s));
    ElemsPlain(s);
    CleanElems(s);
    KeepAllWalks(rooted, from, [], Elems(s));
    if out == [] && !rooted {
      assert WalkAll(from, ["."]) == WalkAll(Walk(from, "."), []);
    }
  }

  // ---------------------------------------------------------------- in place

  predicate Sep(c: char) { c == '/' || c == NUL }

  /** The buffer still holds the unread rest of s from p on, and the terminator. */
  predicate Unread(name: array<char>, s: string, p: nat)
    reads name
  {
    && p <= |s| < name.Length && name[|s|] == NUL
    && forall i :: p <= i < |s| ==> name[i] == s[i]
  }

  /** The buffer starts with text. */
  predicate Starts(name: array<char>, text: string)
    reads name
  {
    |text| <= name.Length && forall i :: 0 <= i < |text| ==> name[i] == text[i]
  }

  /** The buffer starts with the elements kept so far, up to q. */
  predicate Written(name: array<char>, rooted: bool, out: seq<string>, q: nat)
    reads name
  {
    q == |Body(rooted, out)| && Starts(name, Body(rooted, out))
  }

  /** dotdot marks the end of the leading run of `dots` parent references. */
  predicate Barrier(rooted: bool, out: seq<string>, dots: nat, dotdot: nat) {
    && dots <= |out| && dotdot == |Body(rooted, out[..dots])|
    && (forall i :: 0 <= i < dots ==> out[i] == "..")
    && (forall i :: dots <= i < |out| ==> out[i] != "..")
    && (dots > 0 ==> !rooted)
  }

  /** Room to write: q is behind p unless nothing is kept yet or p is at a separator. */
  predicate Room(name: array<char>, out: seq<string>, p: nat, q: nat)
    reads name
  {
    q <= p < name.Length && (q < p || out == [] || Sep(name[p]))
  }

  lemma BodyStep(rooted: bool, out: seq<string>)
    requires out != []
    ensures var init, e := out[..|out| - 1], out[|out| - 1];
            Body(rooted, out) == Body(rooted, init) + (if init == [] then e else "/" + e)
  {
    if |out| == 1 { assert out[..0] == []; }
  }

  lemma {:induction false} BodyMonotone(rooted: bool, out: seq<string>, k: nat)
    requires k <= |out|
    ensures |Body(rooted, out[..k])| <= |Body(rooted, out)|
    decreases |out|
  {
    if k < |out| {
      BodyStep(rooted, out);
      BodyMonotone(rooted, out[..|out| - 1], k);
      assert out[..|out| - 1][..k] == out[..k];
    } else {
      assert out[..k] == out;
    }
  }

  /** The inner loop that drops the last kept element (cleanname.c:58-59). */
  method Backtrack(name: array<char>, q0: nat, dotdot: nat, ghost rooted: bool, ghost out: seq<string>, ghost dots: nat) returns (q: nat)
    requires Written(name, rooted, out, q0) && Barrier(rooted, out, dots, dotdot)
    requires dots < |out| && '/' !in out[|out| - 1] && out[|out| - 1] != []
    ensures q < q0 && Written(name, rooted, out[..|out| - 1], q)
  {
    ghost var init, e := out[..|out| - 1], out[|out| - 1];
    ghost var low := |Body(rooted, init)|;
    BodyStep(rooted, out);
    BodyMonotone(rooted, init, dots);
    assert init[..dots] == out[..dots];
    ghost var tail := if init == [] then e else "/" + e;
    hide Body;
    assert forall i :: low <= i < q0 ==> name[i] == tail[i - low];
    assert init == [] ==> dots == 0 && dotdot == low;
    q := q0 - 1;
    while q > dotdot && name[q] != '/'
      invariant low <= q < q0
      invariant forall i :: q < i < q0 && low < i ==> name[i] != '/'
      decreases q
    {
      q := q - 1;
    }
  }

  /** The inner loop that copies one element down (cleanname.c:70-71). */
  method CopyRun(name: array<char>, p0: nat, q0: nat, ghost s: string) returns (p: nat, q: nat)
    requires q0 <= p0 < |s| < name.Length && NUL !in s
    requires (forall i :: p0 <= i < |s| ==> name[i] == s[i]) && name[|s|] == NUL
    modifies name
    ensures p == p0 + ElemLen(s[p0..]) <= |s| && q == q0 + (p - p0)
    ensures forall i :: 0 <= i < q0 ==> name[i] == old(name[i])
    ensures forall i :: q0 <= i < q ==> name[i] == s[i + p0 - q0]
    ensures forall i :: p <= i < |s| ==> name[i] == s[i]
    ensures name[|s|] == NUL && forall i :: p < i < name.Length ==> name[i] == old(name[i])
  {
    hide ElemLen;
    p, q := p0, q0;
    name[q] := name[p];
    while name[q] != '/' && name[q] != NUL
      invariant p0 <= p <= |s| && q == q0 + (p - p0)
      invariant forall i :: p0 <= i < p ==> s[i] != '/'
      invariant forall i :: 0 <= i < q0 ==> name[i] == old(name[i])
      invariant forall i :: q0 <= i < q ==> name[i] == s[i + p0 - q0]
      invariant forall i :: p <= i < |s| ==> name[i] == s[i]
      invariant name[|s|] == NUL && name[q] == name[p]
      invariant forall i :: p < i < name.Length ==> name[i] == old(name[i])
      decreases |s| - p
    {
      p, q := p + 1, q + 1;
      name[q] := name[p];
    }
    RunEnds(s, p0, p);
  }

  lemma RunEnds(s: string, p0: nat, p: nat)
    requires p0 <= p <= |s| && NUL !in s && (forall i :: p0 <= i < p ==> s[i] != '/') && (p < |s| ==> s[p] == '/' || s[p] == NUL)
    ensures p == p0 + ElemLen(s[p0..])
  {
    hide ElemLen;
    assert p < |s| ==> s[p] in s;
    ElemLenIs(s[p0..], p - p0);
  }

  lemma {:induction false} ElemLenIs(s: string, k: nat)
    requires k <= |s| && (forall i :: 0 <= i < k ==> s[i] != '/') && (k < |s| ==> s[k] == '/')
    ensures ElemLen(s) == k
  {
    if k > 0 { ElemLenIs(s[1..], k - 1); }
  }

  /** A real path element (cleanname.c:67-72). */
  method CopyElem(name: array<char>, p0: nat, q0: nat, root: nat, ghost s: string, ghost rooted: bool, ghost out: seq<string>)
    returns (p: nat, q: nat)
    requires Unread(name, s, p0) && NUL !in s && p0 < |s| && s[p0] != '/'
    requires Written(name, rooted, out, q0) && Room(name, out, p0, q0)
    requires q0 == root <==> out == []
    modifies name
    ensures p == p0 + ElemLen(s[p0..]) <= |s| && p0 < p && q <= p
    ensures Unread(name, s, p) && Written(name, rooted, out + [s[p0..p]], q)
    ensures forall i :: p < i < name.Length ==> name[i] == old(name[i])
  {
    hide Body, Join;
    q := q0;
    if q != root {
      assert s[p0] in s;
      name[q] := '/';
      q := q + 1;
    }
    assert Starts(name, Body(rooted, out) + if out == [] then "" else "/");
    p, q := CopyRun(name, p0, q, s);
    ElemWritten(name, rooted, out, s[p0..p], q);
  }

  lemma ElemWritten(name: array<char>, rooted: bool, out: seq<string>, e: string, q: nat)
    requires var before := Body(rooted, out) + if out == [] then "" else "/";
             && q == |before| + |e| <= name.Length && Starts(name, before)
             && forall i :: |before| <= i < q ==> name[i] == e[i - |before|]
    ensures Written(name, rooted, out + [e], q)
  {
    hide Body;
    BodyStep(rooted, out + [e]);
    assert (out + [e])[..|out|] == out;
  }

  /** Keeping a ".." that cannot be resolved (cleanname.c:60-65); the two dots just read make
      room for it. */
  method PushParent(name: array<char>, p: nat, q0: nat, ghost s: string, ghost out: seq<string>) returns (q: nat)
    requires 2 <= p && Unread(name, s, p) && Written(name, false, out, q0)
    requires q0 + 2 <= p && (out != [] ==> q0 + 3 <= p) && (q0 == 0 <==> out == [])
    modifies name
    ensures q <= p && Unread(name, s, p) && Written(name, false, out + [".."], q)
    ensures forall i :: p <= i < name.Length ==> name[i] == old(name[i])
  {
    hide Body, Join;
    BodyStep(false, out + [".."]);
    assert (out + [".."])[..|out|] == out;
    q := q0;
    if q != 0 {
      name[q] := '/';
      q := q + 1;
    }
    name[q] := '.';
    name[q + 1] := '.';
    q := q + 2;
  }

  lemma BodyLonger(rooted: bool, out: seq<string>, k: nat)
    requires k < |out| && forall i :: 0 <= i < |out| ==> out[i] != []
    ensures |Body(rooted, out[..k])| < |Body(rooted, out)|
  {
    BodyStep(rooted, out);
    BodyMonotone(rooted, out[..|out| - 1], k);
    assert out[..|out| - 1][..k] == out[..k];
  }

  /** What reading the element at p amounts to. */
  lemma ReadElem(s: string, p: nat, rooted: bool, out: seq<string>)
    requires p < |s|
    ensures s[p] == '/' ==> Elems(s[p..]) == Elems(s[p + 1..])
    ensures s[p] != '/' ==>
              var k := ElemLen(s[p..]);
              && k > 0 && s[p..p + k] != [] && '/' !in s[p..p + k]
              && KeepAll(rooted, out, Elems(s[p..])) == KeepAll(rooted, Keep(rooted, out, s[p..p + k]), Elems(s[p + k..]))
  {
    assert s[p..][1..] == s[p + 1..];
    if s[p] != '/' {
      var k := ElemLen(s[p..]);
      var es := Elems(s[p..]);
      assert s[p..][..k] == s[p..p + k] && s[p..][k..] == s[p + k..];
      assert es == [s[p..p + k]] + Elems(s[p + k..]);
      assert es[1..] == Elems(s[p + k..]);
    }
  }

  /** Everything the main loop keeps true. */
  ghost predicate Cleaning(name: array<char>, s: string, rooted: bool, out: seq<string>, dots: nat,
                           p: nat, q: nat, dotdot: nat)
    reads name
  {
    && Unread(name, s, p) && Written(name, rooted, out, q) && Room(name, out, p, q)
    && Barrier(rooted, out, dots, dotdot) && Normal(rooted, out)
    && KeepAll(rooted, out, Elems(s[p..])) == KeepAll(rooted, [], Elems(s))
  }

  lemma Lengths(rooted: bool, out: seq<string>, dots: nat, q: nat, dotdot: nat)
    requires Normal(rooted, out) && Barrier(rooted, out, dots, dotdot) && q == |Body(rooted, out)|
    ensures q == (if rooted then 1 else 0) <==> out == []
    ensures q > dotdot <==> dots < |out|
    ensures out != [] ==> (dots < |out| <==> out[|out| - 1] != "..")
  {
    if out != [] { BodyLonger(rooted, out, 0); assert out[..0] == []; }
    if dots < |out| { BodyLonger(rooted, out, dots); } else { assert out[..dots] == out; }
  }

  /** The element at p is "." or ".." exactly when the source's character tests say so. */
  lemma DotTests(s: string, p: nat)
    requires p < |s| && s[p] != '/'
    ensures var k := ElemLen(s[p..]); var e := s[p..p + k];
            && (e == "." <==> s[p] == '.' && (p + 1 == |s| || s[p + 1] == '/'))
            && (e == ".." <==> s[p] == '.' && p + 1 < |s| && s[p + 1] == '.' && (p + 2 == |s| || s[p + 2] == '/'))
            && (e == "." ==> k == 1) && (e == ".." ==> k == 2)
  {
    var t := s[p..];
    var k := ElemLen(t);
    assert k < |t| ==> s[p + k] == t[k];
    assert k == 1 ==> s[p..p + k] == [s[p]];
    assert k == 2 ==> s[p..p + k] == [s[p], s[p + 1]];
    if s[p] == '.' && (p + 1 == |s| || s[p + 1] == '/') { ElemLenIs(t, 1); }
    if s[p] == '.' && p + 1 < |s| && s[p + 1] == '.' && (p + 2 == |s| || s[p + 2] == '/') { ElemLenIs(t, 2); }
  }

  lemma BarrierLess(rooted: bool, out: seq<string>, dots: nat, dotdot: nat)
    requires Barrier(rooted, out, dots, dotdot) && dots < |out|
    ensures Barrier(rooted, out[..|out| - 1], dots, dotdot)
  {
    assert out[..|out| - 1][..dots] == out[..dots];
  }

  lemma BarrierMore(rooted: bool, out: seq<string>, dots: nat, dotdot: nat, e: string)
    requires Barrier(rooted, out, dots, dotdot) && e != ".."
    ensures Barrier(rooted, out + [e], dots, dotdot)
  {
    assert (out + [e])[..dots] == out[..dots];
  }

  lemma BarrierMoved(out: seq<string>, dotdot: nat)
    requires Barrier(false, out, |out|, dotdot)
    ensures Barrier(false, out + [".."], |out| + 1, |Body(false, out + [".."])|)
  {
    assert (out + [".."])[..|out| + 1] == out + [".."];
  }

  lemma LastKept(rooted: bool, out: seq<string>, dots: nat, dotdot: nat)
    requires Normal(rooted, out) && Barrier(rooted, out, dots, dotdot)
    ensures dots <= |out| && (out != [] ==> out[|out| - 1] != [] && '/' !in out[|out| - 1])
  {
    if out != [] { assert Proper(out[|out| - 1]); }
  }

  lemma WrittenLength(name: array<char>, rooted: bool, out: seq<string>, q: nat)
    requires Written(name, rooted, out, q)
    ensures q == |Body(rooted, out)|
  {
  }

  lemma WrittenLengths(name: array<char>, rooted: bool, out: seq<string>, dots: nat, q: nat, dotdot: nat)
    requires Normal(rooted, out) && Barrier(rooted, out, dots, dotdot) && Written(name, rooted, out, q)
    ensures q == (if rooted then 1 else 0) <==> out == []
    ensures q > dotdot <==> dots < |out|
    ensures out != [] ==> (dots < |out| <==> out[|out| - 1] != "..")
    ensures dots == |out| ==> dotdot == q
  {
    Lengths(rooted, out, dots, q, dotdot);
    assert dots == |out| ==> out[..dots] == out;
  }

  /** What stands behind an element. */
  lemma AfterElem(s: string, p: nat)
    requires p <= |s|
    ensures var k := p + ElemLen(s[p..]); k <= |s| && (k < |s| ==> s[k] == '/')
  {
    var k := ElemLen(s[p..]);
    assert p + k < |s| ==> s[p..][k] == s[p + k];
  }

  lemma KeptParent(rooted: bool, out: seq<string>)
    ensures out != [] && out[|out| - 1] != ".." ==> Keep(rooted, out, "..") == out[..|out| - 1]
    ensures !(out != [] && out[|out| - 1] != "..") ==> Keep(rooted, out, "..") == if rooted then out else out + [".."]
  {
  }

  /** ".." (cleanname.c:55-66). */
  method Parent(name: array<char>, p0: nat, q0: nat, dotdot0: nat, root: nat,
                ghost s: string, ghost rooted: bool, ghost out: seq<string>, ghost dots: nat)
    returns (p: nat, q: nat, dotdot: nat, ghost out': seq<string>, ghost dots': nat)
    requires Cleaning(name, s, rooted, out, dots, p0, q0, dotdot0) && NUL !in s
    requires p0 < |s| && s[p0] != '/' && ElemLen(s[p0..]) == 2 && s[p0..p0 + 2] == ".." && root == (if rooted then 1 else 0)
    modifies name
    ensures p == p0 + 2 && p < name.Length && Cleaning(name, s, rooted, out', dots', p, q, dotdot)
    ensures forall i :: |s| < i < name.Length ==> name[i] == old(name[i])
  {
    hide Body, Join, Elems, KeepAll, Keep, Normal, Barrier, ElemLen, Proper, Written;
    WrittenLengths(name, rooted, out, dots, q0, dotdot0);
    ReadElem(s, p0, rooted, out);
    KeepNormal(rooted, out, "..");
    AfterElem(s, p0);
    KeptParent(rooted, out);
    LastKept(rooted, out, dots, dotdot0);
    p, q, dotdot, out', dots' := p0 + 2, q0, dotdot0, out, dots;
    if q > dotdot {
      q := Backtrack(name, q, dotdot, rooted, out, dots);
      BarrierLess(rooted, out, dots, dotdot);
      out' := out[..|out| - 1];
    } else if root == 0 {
      assert out[..dots] == out;
      q := PushParent(name, p, q, s, out);
      BarrierMoved(out, dotdot0);
      WrittenLength(name, rooted, out + [".."], q);
      dotdot, dots', out' := q, |out| + 1, out + [".."];
    }
  }

  /** An element that is neither "." nor ".." (cleanname.c:67-72). */
  method RealElem(name: array<char>, p0: nat, q0: nat, ghost dotdot: nat, root: nat,
                  ghost s: string, ghost rooted: bool, ghost out: seq<string>, ghost dots: nat)
    returns (p: nat, q: nat, ghost out': seq<string>)
    requires Cleaning(name, s, rooted, out, dots, p0, q0, dotdot) && NUL !in s
    requires p0 < |s| && s[p0] != '/' && root == (if rooted then 1 else 0)
    requires var e := s[p0..p0 + ElemLen(s[p0..])]; e != "." && e != ".."
    modifies name
    ensures p0 < p < name.Length && Cleaning(name, s, rooted, out', dots, p, q, dotdot)
    ensures forall i :: |s| < i < name.Length ==> name[i] == old(name[i])
  {
    hide Body, Join, Elems, KeepAll, Keep, Normal, Barrier, Written, ElemLen;
    WrittenLength(name, rooted, out, q0);
    Lengths(rooted, out, dots, q0, dotdot);
    ReadElem(s, p0, rooted, out);
    ghost var e := s[p0..p0 + ElemLen(s[p0..])];
    p, q := CopyElem(name, p0, q0, root, s, rooted, out);
    KeepReal(rooted, out, e);
    KeepNormal(rooted, out, e);
    BarrierMore(rooted, out, dots, dotdot, e);
    out' := out + [e];
    AfterElem(s, p0);
  }

  lemma KeepReal(rooted: bool, out: seq<string>, e: string)
    requires e != "." && e != ".."
    ensures Keep(rooted, out, e) == out + [e]
  {
  }

  /** One pass of the main loop (cleanname.c:50-73). */
  method OneElem(name: array<char>, p0: nat, q0: nat, dotdot0: nat, root: nat,
                 ghost s: string, ghost rooted: bool, ghost out: seq<string>, ghost dots: nat)
    returns (p: nat, q: nat, dotdot: nat, ghost out': seq<string>, ghost dots': nat)
    requires p0 < name.Length && name[p0] != NUL && Cleaning(name, s, rooted, out, dots, p0, q0, dotdot0) && NUL !in s
    requires root == (if rooted then 1 else 0)
    modifies name
    ensures p0 < p < name.Length && Cleaning(name, s, rooted, out', dots', p, q, dotdot)
    ensures forall i :: |s| < i < name.Length ==> name[i] == old(name[i])
  {
    hide Body, Join, Elems, KeepAll, Normal, Barrier, Written, ElemLen;
    ReadElem(s, p0, rooted, out);
    p, q, dotdot, out', dots' := p0, q0, dotdot0, out, dots;
    NoNul(name, s, p0);
    if name[p] == '/' {
      p := p + 1;
    } else {
      DotTests(s, p0);
      if name[p] == '.' && Sep(name[p + 1]) {
        p := p + 1;
      } else if name[p] == '.' && name[p + 1] == '.' && Sep(name[p + 2]) {
        p, q, dotdot, out', dots' := Parent(name, p0, q0, dotdot0, root, s, rooted, out, dots);
      } else {
        p, q, out' := RealElem(name, p0, q0, dotdot0, root, s, rooted, out, dots);
      }
    }
  }

  lemma NoNul(name: array<char>, s: string, p: nat)
    requires Unread(name, s, p) && NUL !in s
    ensures forall i :: p <= i <= |s| ==> (name[i] == NUL <==> i == |s|)
  {
    assert forall i :: 0 <= i < |s| ==> s[i] in s;
  }

  lemma StartCleaning(name: array<char>, s: string)
    requires |s| < name.Length && name[|s|] == NUL && NUL !in s && forall i :: 0 <= i < |s| ==> name[i] == s[i]
    ensures var root := if Rooted(s) then 1 else 0; Cleaning(name, s, Rooted(s), [], 0, root, root, root)
  {
    assert s[0..] == s;
    if Rooted(s) { ReadElem(s, 0, true, []); }
  }

  /** cleanname: rewrites a NUL-terminated path of length n in place.  The result is the cleaned
      path; nothing past the old terminator is touched but for the "." of an empty path, for
      which the caller must leave room. */
  method CleanInPlace(name: array<char>, ghost n: nat) returns (ghost m: nat)
    requires n < name.Length && name[n] == NUL && (forall i :: 0 <= i < n ==> name[i] != NUL)
    requires n == 0 ==> name.Length >= 2
    modifies name
    ensures m < name.Length && m <= (if n == 0 then 1 else n)
    ensures name[..m] == Clean(old(name[..n])) && name[m] == NUL
    ensures forall i :: n < i < name.Length && i > 1 ==> name[i] == old(name[i])
  {
    ghost var s := name[..n];
    ghost var rooted := Rooted(s);
    StartCleaning(name, s);
    var root: nat := if name[0] == '/' then 1 else 0;
    var p: nat, q: nat, dotdot: nat := root, root, root;
    ghost var out: seq<string> := [];
    ghost var dots: nat := 0;
    hide Body, Join, Elems, KeepAll, Cleaning, Clean;
    while name[p] != NUL
      invariant p < name.Length && p <= n && Cleaning(name, s, rooted, out, dots, p, q, dotdot)
      invariant forall i :: n < i < name.Length ==> name[i] == old(name[i])
      decreases n - p
    {
      p, q, dotdot, out, dots := OneElem(name, p, q, dotdot, root, s, rooted, out, dots);
    }
    CleaningDone(name, s, out, dots, p, q, dotdot);
    m := Terminate(name, q, Body(rooted, out));
  }

  /** The last step (cleanname.c:74-76): an empty result becomes ".". */
  method Terminate(name: array<char>, q: nat, ghost body: string) returns (ghost m: nat)
    requires q == |body| < name.Length && Starts(name, body) && (q == 0 ==> name.Length >= 2)
    modifies name
    ensures m == (if q == 0 then 1 else q) && m < name.Length
    ensures name[..m] == (if body == "" then "." else body) && name[m] == NUL
    ensures forall i :: m < i < name.Length ==> name[i] == old(name[i])
  {
    var end := q;
    if q == 0 {
      name[0] := '.';
      end := 1;
    }
    name[end] := NUL;
    m := end;
  }

  lemma CleaningDone(name: array<char>, s: string, out: seq<string>, dots: nat, p: nat, q: nat, dotdot: nat)
    requires Cleaning(name, s, Rooted(s), out, dots, p, q, dotdot) && NUL !in s && p < name.Length && name[p] == NUL
    ensures p == |s| && q <= p && q == |Body(Rooted(s), out)| && Starts(name, Body(Rooted(s), out))
    ensures Clean(s) == if Body(Rooted(s), out) == "" then "." else Body(Rooted(s), out)
  {
    hide Body, Join, Elems, KeepAll, Clean;
    NoNul(name, s, p);
    FinishCleaning(s, out);
    Lengths(Rooted(s), out, dots, q, dotdot);
  }

  lemma FinishCleaning(s: string, out: seq<string>)
    requires KeepAll(Rooted(s), out, Elems(s[|s|..])) == KeepAll(Rooted(s), [], Elems(s))
    ensures Clean(s) == if out == [] && !Rooted(s) then "." else Body(Rooted(s), out)
  {
    assert s[|s|..] == [];
  }
}
