/** Dot-segment removal (section 5.2.4 of RFC 3986): the rewriting loop, and the fold over
    path segments it computes. A segment is kept with the slash in front of it, so "/a//b"
    has the segments "/a", "/" and "/b". */
module DotSegments {
  import opened Text
  import opened Percent

  function Concat(parts: seq<string>): string {
    if parts == [] then "" else parts[0] + Concat(parts[1..])
  }

  predicate IsSegment(p: string) {
    p != "" && p[0] == '/' && '/' !in p[1..]
  }

  predicate IsDots(p: string) {
    p == "/." || p == "/.."
  }

  predicate AllSegments(ps: seq<string>) {
    forall p :: p in ps ==> IsSegment(p)
  }

  /** Segments none of which is "." or "..". */
  predicate Clean(ps: seq<string>) {
    AllSegments(ps) && forall p :: p in ps ==> !IsDots(p)
  }

  predicate Absolute(path: string) {
    path != "" && path[0] == '/'
  }

  /** The length of the first segment of an absolute path. */
  function FirstCut(path: string): (cut: nat)
    requires Absolute(path)
    ensures 1 <= cut <= |path|
    ensures IsSegment(path[..cut])
    ensures cut < |path| ==> Absolute(path[cut..])
  {
    var cut := 1 + IndexOf(path[1..], '/');
    assert path[..cut][1..] == path[1..][..cut - 1];
    assert cut < |path| ==> path[cut] == path[1..][cut - 1];
    cut
  }

  /** Cut an absolute path before each slash. */
  function Split(path: string): (ps: seq<string>)
    requires Absolute(path)
    ensures ps != []
    decreases |path|
  {
    var cut := FirstCut(path);
    if cut == |path| then [path] else [path[..cut]] + Split(path[cut..])
  }

  lemma {:induction false} SplitJoins(path: string)
    requires Absolute(path)
    ensures AllSegments(Split(path)) && Concat(Split(path)) == path
    decreases |path|
  {
    var cut := FirstCut(path);
    if cut == |path| {
      assert path[..cut] == path;
      assert Concat([path]) == path;
    } else {
      SplitJoins(path[cut..]);
      assert Split(path)[1..] == Split(path[cut..]);
      assert path == path[..cut] + path[cut..];
    }
  }

  function Pop(stack: seq<string>): seq<string> {
    if stack == [] then [] else stack[..|stack| - 1]
  }

  /** Skip ".", pop on "..", push anything else; a dot segment at the end leaves "/". */
  function Fold(stack: seq<string>, ps: seq<string>): seq<string>
    decreases |ps|
  {
    if ps == [] then stack
    else
      var kept :=
        if ps[0] == "/." then stack
        else if ps[0] == "/.." then Pop(stack)
        else stack + [ps[0]];
      Fold(if IsDots(ps[0]) && |ps| == 1 then kept + ["/"] else kept, ps[1..])
  }

  /** What is left to do with the input `data` when `output` has been produced. Leading "."
      and ".." of a relative path are dropped; any other first segment is kept without a
      slash. */
  function Finish(output: seq<string>, data: string): seq<string>
    decreases |data|
  {
    if data == "" then output
    else if Absolute(data) then Fold(output, Split(data))
    else
      var cut := IndexOf(data, '/');
      if data[..cut] == "." || data[..cut] == ".." then
        if cut == |data| then output else Finish(output, data[cut + 1..])
      else if cut == |data| then output + [data]
      else Fold(output + [data[..cut]], Split(data[cut..]))
  }

  /** The dot-free form of any path. */
  function Remove(path: string): string {
    Concat(Finish([], path))
  }

  lemma SplitCons(p: string, rest: string)
    requires IsSegment(p) && Absolute(rest)
    ensures Split(p + rest) == [p] + Split(rest)
  {
    var path := p + rest;
    assert path[1..] == p[1..] + rest;
    IndexOfSplit(p[1..], rest, '/');
    assert FirstCut(path) == |p|;
    assert path[..|p|] == p && path[|p|..] == rest;
  }

  lemma SplitOne(p: string)
    requires IsSegment(p)
    ensures Split(p) == [p]
  {
    IndexOfSplit(p[1..], "", '/');
    assert p[1..] + "" == p[1..];
  }

  /** The rewriting loop computes the fold, for every path. */
  method RemoveDotSegments(path: string) returns (r: string)
    ensures r == Remove(path)
  {
    var output: seq<string> := [];
    var data := path;
    ghost var goal := Finish(output, data);
    while data != ""
      invariant Finish(output, data) == goal
      decreases |data|
    {
      if "../" <= data {
        LeadingDots(output, data, 2);
        data := data[3..];
      } else if "./" <= data {
        LeadingDots(output, data, 1);
        data := data[2..];
      } else if "/./" <= data {
        InnerDots(output, data, "/.");
        data := "/" + data[3..];
      } else if data == "/." {
        TrailingDots(output, data);
        data := "/";
      } else if "/../" <= data {
        InnerDots(output, data, "/..");
        data := "/" + data[4..];
        if output != [] {
          output := output[..|output| - 1];
        }
      } else if data == "/.." {
        TrailingDots(output, data);
        data := "/";
        if output != [] {
          output := output[..|output| - 1];
        }
      } else if data == "." || data == ".." {
        OnlyDots(output, data);
        data := "";
      } else {
        var start := if data[0] == '/' then 1 else 0;
        var cut := start + IndexOf(data[start..], '/');
        assert start == 0 ==> data[start..] == data;
        NextSegment(output, data, cut);
        if cut == |data| {
          assert data[..cut] == data && data[cut..] == "";
          output := output + [data];
          data := "";
        } else {
          output := output + [data[..cut]];
          data := data[cut..];
        }
      }
    }
    r := Concat(output);
  }

  lemma LeadingDots(output: seq<string>, data: string, cut: nat)
    requires (cut == 1 && "./" <= data) || (cut == 2 && "../" <= data)
    ensures Finish(output, data) == Finish(output, data[cut + 1..])
  {
    var dots := if cut == 1 then "./" else "../";
    assert forall k :: 0 <= k < |dots| ==> data[k] == dots[k];
    assert data == data[..cut] + data[cut..];
    assert data[..cut] == (if cut == 1 then "." else "..") && data[cut..][0] == '/';
    IndexOfSplit(data[..cut], data[cut..], '/');
  }

  lemma OnlyDots(output: seq<string>, data: string)
    requires data == "." || data == ".."
    ensures Finish(output, data) == Finish(output, "")
  {
    IndexOfSplit(data, "", '/');
    assert data + "" == data && data[..|data|] == data;
  }

  lemma InnerDots(output: seq<string>, data: string, dots: string)
    requires IsDots(dots) && dots + "/" <= data
    ensures Finish(output, data) ==
            Finish(if dots == "/." then output else Pop(output), "/" + data[|dots| + 1..])
  {
    var n := |dots|;
    var rest := "/" + data[n + 1..];
    assert data == dots + rest by {
      assert data[..n + 1] == dots + "/";
      assert data == data[..n + 1] + data[n + 1..];
    }
    SplitCons(dots, rest);
    FoldCons(output, dots, Split(rest));
  }

  lemma FoldCons(stack: seq<string>, p: string, rest: seq<string>)
    requires rest != []
    ensures Fold(stack, [p] + rest) ==
            Fold(if p == "/." then stack else if p == "/.." then Pop(stack) else stack + [p], rest)
  {
    assert ([p] + rest)[1..] == rest;
  }

  lemma FoldLast(stack: seq<string>, p: string)
    ensures !IsDots(p) ==> Fold(stack, [p]) == stack + [p]
    ensures p == "/." ==> Fold(stack, [p]) == stack + ["/"]
    ensures p == "/.." ==> Fold(stack, [p]) == Pop(stack) + ["/"]
  {
    assert [p][1..] == [];
  }

  lemma TrailingDots(output: seq<string>, data: string)
    requires IsDots(data)
    ensures Finish(output, data) == Finish(if data == "/." then output else Pop(output), "/")
  {
    SplitOne(data);
    SplitOne("/");
    FoldLast(output, data);
    FoldLast(if data == "/." then output else Pop(output), "/");
  }

  lemma NextSegment(output: seq<string>, data: string, cut: nat)
    requires data != "" && data != "." && data != ".."
    requires !("../" <= data) && !("./" <= data) && !("/./" <= data) && !("/../" <= data) && !IsDots(data)
    requires cut == (if Absolute(data) then 1 + IndexOf(data[1..], '/') else IndexOf(data, '/'))
    ensures 0 < cut <= |data|
    ensures Finish(output, data) == Finish(output + [data[..cut]], data[cut..])
  {
    assert cut < |data| ==> data[cut] == '/' && data[..cut + 1] == data[..cut] + "/";
    assert cut == |data| ==> data[..cut] == data;
    if Absolute(data) {
      assert cut == FirstCut(data);
      assert !IsDots(data[..cut]);
      if cut == |data| {
        FoldLast(output, data);
      } else {
        FoldCons(output, data[..cut], Split(data[cut..]));
      }
    } else {
      assert data[..cut] != "." && data[..cut] != "..";
    }
  }

  // ---- what the fold leaves ----

  lemma ConcatAppend(a: seq<string>, b: seq<string>)
    ensures Concat(a + b) == Concat(a) + Concat(b)
  {
    if a == [] {
      assert a + b == b;
    } else {
      assert (a + b)[1..] == a[1..] + b;
    }
  }

  lemma {:induction false} SplitConcat(ps: seq<string>)
    requires ps != [] && AllSegments(ps)
    ensures Absolute(Concat(ps)) && Split(Concat(ps)) == ps
  {
    assert ps == [ps[0]] + ps[1..];
    if |ps| == 1 {
      assert Concat(ps) == ps[0];
      SplitOne(ps[0]);
    } else {
      SplitConcat(ps[1..]);
      SplitCons(ps[0], Concat(ps[1..]));
    }
  }

  lemma {:induction false} FoldClean(stack: seq<string>, ps: seq<string>)
    requires Clean(stack) && AllSegments(ps)
    ensures Clean(Fold(stack, ps))
    ensures ps != [] ==> Fold(stack, ps) != []
    ensures forall p :: p in Fold(stack, ps) ==> p in stack || p in ps || p == "/"
    decreases |ps|
  {
    if ps == [] {
    } else if |ps| == 1 {
      FoldLast(stack, ps[0]);
      assert ps == [ps[0]];
    } else {
      assert ps == [ps[0]] + ps[1..];
      FoldCons(stack, ps[0], ps[1..]);
      FoldClean(if ps[0] == "/." then stack else if ps[0] == "/.." then Pop(stack) else stack + [ps[0]], ps[1..]);
    }
  }

  lemma {:induction false} FoldOfClean(stack: seq<string>, ps: seq<string>)
    requires Clean(ps)
    ensures Fold(stack, ps) == stack + ps
    decreases |ps|
  {
    if ps == [] {
    } else {
      assert ps[0] in ps;
      FoldOfClean(stack + [ps[0]], ps[1..]);
      assert stack + [ps[0]] + ps[1..] == stack + ps;
    }
  }

  lemma {:induction false} FoldShortens(stack: seq<string>, ps: seq<string>)
    requires AllSegments(ps)
    ensures |Concat(Fold(stack, ps))| <= |Concat(stack)| + |Concat(ps)|
    ensures |Concat(Fold(stack, ps))| == |Concat(stack)| + |Concat(ps)| ==> Clean(ps)
    decreases |ps|
  {
    if ps == [] {
    } else {
      assert ps == [ps[0]] + ps[1..];
      ConcatPop(stack);
      ConcatAppend(stack, [ps[0]]);
      ConcatAppend(stack, ["/"]);
      ConcatAppend(Pop(stack), ["/"]);
      assert Concat([ps[0]]) == ps[0] && Concat(["/"]) == "/";
      if |ps| == 1 {
        FoldLast(stack, ps[0]);
      } else {
        FoldCons(stack, ps[0], ps[1..]);
        FoldShortens(if ps[0] == "/." then stack else if ps[0] == "/.." then Pop(stack) else stack + [ps[0]], ps[1..]);
      }
    }
  }

  lemma ConcatPop(stack: seq<string>)
    ensures |Concat(Pop(stack))| <= |Concat(stack)|
  {
    if stack != [] {
      ConcatAppend(Pop(stack), [stack[|stack| - 1]]);
      assert stack == Pop(stack) + [stack[|stack| - 1]];
    }
  }

  /** The result of an absolute path is its fold: it is absolute and its segments contain no
      "." and no "..". */
  lemma RemoveIsFold(path: string)
    requires Absolute(path)
    ensures Remove(path) == Concat(Fold([], Split(path)))
    ensures Absolute(Remove(path)) && Split(Remove(path)) == Fold([], Split(path))
    ensures Clean(Split(Remove(path)))
  {
    SplitJoins(path);
    FoldClean([], Split(path));
    SplitConcat(Fold([], Split(path)));
  }

  /** A path is left alone exactly when none of its segments is "." or ".."; runs of slashes
      do not matter. */
  lemma RemoveFixesExactly(path: string)
    requires Absolute(path)
    ensures |Remove(path)| <= |path|
    ensures Remove(path) == path <==> Clean(Split(path))
    ensures |Remove(path)| == |path| ==> Remove(path) == path
  {
    SplitJoins(path);
    FoldShortens([], Split(path));
    if Clean(Split(path)) {
      FoldOfClean([], Split(path));
      assert [] + Split(path) == Split(path);
    }
  }

  lemma RemoveIdempotent(path: string)
    requires Absolute(path)
    ensures Remove(Remove(path)) == Remove(path)
  {
    RemoveIsFold(path);
    RemoveFixesExactly(Remove(path));
  }

  // ---- what dot segments do ----

  lemma SplitAppend(a: string, b: string)
    requires Absolute(a) && Absolute(b)
    ensures Split(a + b) == Split(a) + Split(b)
  {
    SplitJoins(a);
    SplitJoins(b);
    ConcatAppend(Split(a), Split(b));
    SplitConcat(Split(a) + Split(b));
  }

  /** Segments that end a path alike from every stack can replace each other. */
  lemma {:induction false} FoldAfter(stack: seq<string>, ps: seq<string>, xs: seq<string>, ys: seq<string>)
    requires xs != [] && ys != [] && forall s :: Fold(s, xs) == Fold(s, ys)
    ensures Fold(stack, ps + xs) == Fold(stack, ps + ys)
    decreases |ps|
  {
    if ps == [] {
      assert ps + xs == xs && ps + ys == ys;
    } else {
      assert ps + xs == [ps[0]] + (ps[1..] + xs) && ps + ys == [ps[0]] + (ps[1..] + ys);
      FoldCons(stack, ps[0], ps[1..] + xs);
      FoldCons(stack, ps[0], ps[1..] + ys);
      FoldAfter(if ps[0] == "/." then stack else if ps[0] == "/.." then Pop(stack) else stack + [ps[0]],
                ps[1..], xs, ys);
    }
  }

  /** The same for texts. */
  lemma RemoveAfter(a: string, x: string, y: string)
    requires (a == "" || Absolute(a)) && Absolute(x) && Absolute(y)
    requires forall s :: Fold(s, Split(x)) == Fold(s, Split(y))
    ensures Remove(a + x) == Remove(a + y)
  {
    if a == "" {
      assert a + x == x && a + y == y;
    } else {
      SplitAppend(a, x);
      SplitAppend(a, y);
      FoldAfter([], Split(a), Split(x), Split(y));
    }
  }

  /** A "." segment vanishes. */
  lemma DotVanishes(a: string, rest: string)
    requires (a == "" || Absolute(a)) && Absolute(rest)
    ensures Remove(a + ("/." + rest)) == Remove(a + rest)
    ensures Remove(a + "/.") == Remove(a + "/")
  {
    SplitCons("/.", rest);
    forall s
      ensures Fold(s, Split("/." + rest)) == Fold(s, Split(rest))
    {
      FoldCons(s, "/.", Split(rest));
    }
    RemoveAfter(a, "/." + rest, rest);
    SplitOne("/.");
    SplitOne("/");
    forall s
      ensures Fold(s, Split("/.")) == Fold(s, Split("/"))
    {
      FoldLast(s, "/.");
      FoldLast(s, "/");
    }
    RemoveAfter(a, "/.", "/");
  }

  /** A ".." segment takes the segment before it along, an empty one included. */
  lemma ParentCancels(a: string, segment: string, rest: string)
    requires (a == "" || Absolute(a)) && Absolute(rest)
    requires IsSegment(segment) && segment != "/." && segment != "/.."
    ensures Remove(a + (segment + ("/.." + rest))) == Remove(a + rest)
  {
    SplitCons("/..", rest);
    SplitCons(segment, "/.." + rest);
    forall s
      ensures Fold(s, Split(segment + ("/.." + rest))) == Fold(s, Split(rest))
    {
      FoldCons(s, segment, ["/.."] + Split(rest));
      FoldCons(s + [segment], "/..", Split(rest));
      assert Pop(s + [segment]) == s;
    }
    RemoveAfter(a, segment + ("/.." + rest), rest);
  }

  /** A ".." segment with nothing before it vanishes, and at the end of a path it leaves a
      slash. */
  lemma ParentAtEnds(a: string, rest: string)
    requires (a == "" || Absolute(a)) && Absolute(rest)
    ensures Remove("/.." + rest) == Remove(rest)
    ensures Remove(a + "/..") == Remove(a + ("/.." + "/"))
  {
    SplitCons("/..", rest);
    FoldCons([], "/..", Split(rest));
    SplitOne("/..");
    SplitOne("/");
    SplitCons("/..", "/");
    forall s
      ensures Fold(s, Split("/..")) == Fold(s, Split("/.." + "/"))
    {
      FoldLast(s, "/..");
      FoldCons(s, "/..", ["/"]);
      FoldLast(Pop(s), "/");
    }
    RemoveAfter(a, "/..", "/.." + "/");
  }

  /** A relative path loses its leading dot segments. */
  lemma RelativeDots(rest: string)
    ensures Remove("./" + rest) == Remove("../" + rest) == Remove(rest)
    ensures Remove(".") == Remove("..") == ""
  {
    LeadingDots([], "./" + rest, 1);
    LeadingDots([], "../" + rest, 2);
    assert ("./" + rest)[2..] == rest && ("../" + rest)[3..] == rest;
    OnlyDots([], ".");
    OnlyDots([], "..");
  }

  // ---- dot removal and percent normalization ----

  lemma {:induction false} NormalConcat(ps: seq<string>)
    requires AllSegments(ps)
    ensures Normal(Concat(ps)) <==> forall p :: p in ps ==> Normal(p)
  {
    if ps == [] {
    } else {
      NormalConcat(ps[1..]);
      var rest := Concat(ps[1..]);
      assert rest != "" ==> rest[0] == '/' by {
        if ps[1..] != [] {
          assert ps[1..][0] in ps;
        }
      }
      NormalAppend(ps[0], rest);
      assert ps == [ps[0]] + ps[1..];
    }
  }

  lemma {:induction false} CharsOfConcat(ps: seq<string>, c: char)
    ensures c in Concat(ps) <==> exists p :: p in ps && c in p
  {
    if ps == [] {
    } else {
      CharsOfConcat(ps[1..], c);
      assert ps == [ps[0]] + ps[1..];
    }
  }

  /** Removing segments creates no triplet and no new character. */
  lemma RemoveKeepsText(path: string, c: char)
    requires Absolute(path)
    ensures Normal(path) ==> Normal(Remove(path))
    ensures c in Remove(path) ==> c in path
  {
    SplitJoins(path);
    RemoveIsFold(path);
    var ps, out := Split(path), Fold([], Split(path));
    FoldClean([], ps);
    NormalConcat(ps);
    NormalConcat(out);
    CharsOfConcat(ps, c);
    CharsOfConcat(out, c);
    assert Normal("/");
  }

  lemma NormalizeAbsolute(path: string)
    requires Absolute(path)
    ensures Absolute(Normalize(path))
  {
    HomomorphicAtDelimiter("", '/', path[1..]);
    assert path == "" + ['/'] + path[1..];
  }

  // ---- dot segments in encoded form ----

  /** The dot segments, each dot literal or encoded. */
  predicate OneDot(p: string) {
    p != "" && Decode(p[1..]) == [Byte(46)]
  }

  predicate TwoDots(p: string) {
    p != "" && Decode(p[1..]) == [Byte(46), Byte(46)]
  }

  predicate EncodedDots(p: string) {
    OneDot(p) || TwoDots(p)
  }

  /** A segment that is no dot segment, but is one once a stray percent sign and the digits
      behind it are read as the octet they spell together. */
  predicate SpellsDots(p: string) {
    p != "" && !NoMerge(p[1..])
    && (DecodeMerged(p[1..]) == [Byte(46)] || DecodeMerged(p[1..]) == [Byte(46), Byte(46)])
  }

  /** The fold over raw segments, where dots may be encoded. */
  function RawFold(stack: seq<string>, ps: seq<string>): seq<string>
    decreases |ps|
  {
    if ps == [] then stack
    else
      var kept :=
        if OneDot(ps[0]) then stack
        else if TwoDots(ps[0]) then Pop(stack)
        else stack + [ps[0]];
      RawFold(if EncodedDots(ps[0]) && |ps| == 1 then kept + ["/"] else kept, ps[1..])
  }

  /** The segments of a raw path that are left when its dot segments are resolved. */
  function Survivors(path: string): seq<string>
    requires Absolute(path)
  {
    RawFold([], Split(path))
  }

  function Normalized(ps: seq<string>): (r: seq<string>)
    ensures |r| == |ps|
    ensures forall k :: 0 <= k < |ps| ==> r[k] == Normalize(ps[k])
  {
    seq(|ps|, k requires 0 <= k < |ps| => Normalize(ps[k]))
  }

  lemma NormalizedMembers(ps: seq<string>)
    ensures forall p :: p in ps ==> Normalize(p) in Normalized(ps)
    ensures forall q :: q in Normalized(ps) ==> exists p :: p in ps && Normalize(p) == q
  {
    forall p | p in ps
      ensures Normalize(p) in Normalized(ps)
    {
      var k :| 0 <= k < |ps| && ps[k] == p;
      assert Normalized(ps)[k] == Normalize(p);
    }
    forall q | q in Normalized(ps)
      ensures exists p :: p in ps && Normalize(p) == q
    {
      var k :| 0 <= k < |ps| && Normalized(ps)[k] == q;
      assert ps[k] in ps;
    }
  }

  lemma NormalizedSegment(p: string)
    requires IsSegment(p)
    ensures Normalize(p) == ['/'] + Normalize(p[1..]) && IsSegment(Normalize(p))
    ensures Normalize(p)[1..] == Normalize(p[1..])
  {
    DelimitersKept(p[1..], '/');
  }

  lemma CutNormalized(path: string, cut: nat)
    requires cut < |path| && path[cut] == '/'
    ensures Normalize(path) == Normalize(path[..cut]) + Normalize(path[cut..])
  {
    var p, rest := path[..cut], path[cut..];
    assert path == p + ['/'] + rest[1..];
    assert rest == "" + ['/'] + rest[1..];
    HomomorphicAtDelimiter(p, '/', rest[1..]);
    HomomorphicAtDelimiter("", '/', rest[1..]);
    Assoc(Normalize(p), ['/'], Normalize(rest[1..]));
    assert "" + ['/'] + Normalize(rest[1..]) == ['/'] + Normalize(rest[1..]);
  }

  lemma NormalizedCons(p: string, ps: seq<string>)
    ensures Normalized([p] + ps) == [Normalize(p)] + Normalized(ps)
  {}

  /** Cutting at slashes and normalizing commute. */
  lemma {:induction false} SplitNormalized(path: string)
    requires Absolute(path)
    ensures Absolute(Normalize(path)) && Split(Normalize(path)) == Normalized(Split(path))
    decreases |path|
  {
    var cut := FirstCut(path);
    var p, rest := path[..cut], path[cut..];
    NormalizedSegment(p);
    if cut == |path| {
      assert p == path;
      SplitOne(Normalize(path));
    } else {
      SplitNormalized(rest);
      CutNormalized(path, cut);
      SplitCons(Normalize(p), Normalize(rest));
      NormalizedCons(p, Split(rest));
    }
  }

  /** The first unit of a text normalizes to a dot exactly when it decodes to one. */
  lemma DotUnit(s: string)
    requires s != ""
    ensures var rest := s[UnitLength(s)..];
            if UnitChar(s) == '.' then
              Normalize(s) == "." + Normalize(rest) && Decode(s) == [Byte(46)] + Decode(rest)
            else
              Normalize(s) != "" && Normalize(s)[0] != '.' && Decode(s) != [] && Decode(s)[0] != Byte(46)
  {}

  lemma OneDotText(s: string)
    ensures Normalize(s) == "." <==> Decode(s) == [Byte(46)]
  {
    if s != "" {
      DotUnit(s);
      var rest := s[UnitLength(s)..];
      assert Normalize(rest) == "" <==> rest == "";
      assert Decode(rest) == [] <==> rest == "";
    }
  }

  lemma TwoDotsText(s: string)
    ensures Normalize(s) == ".." <==> Decode(s) == [Byte(46), Byte(46)]
  {
    if s != "" {
      DotUnit(s);
      var rest := s[UnitLength(s)..];
      OneDotText(rest);
      HeadTail('.', Normalize(rest), '.');
      HeadTail(Byte(46), Decode(rest), Byte(46));
    }
  }

  lemma HeadTail<T>(x: T, xs: seq<T>, y: T)
    ensures [x] + xs == [x, y] <==> xs == [y]
  {
    assert ([x] + xs)[1..] == xs && [x, y][1..] == [y];
  }

  /** A segment normalizes to a dot segment exactly when it decodes to one. */
  lemma DotsNormalized(p: string)
    requires IsSegment(p)
    ensures Normalize(p) == "/." <==> OneDot(p)
    ensures Normalize(p) == "/.." <==> TwoDots(p)
  {
    NormalizedSegment(p);
    OneDotText(p[1..]);
    TwoDotsText(p[1..]);
    assert "/."[1..] == "." && "/.."[1..] == "..";
  }

  lemma {:induction false} FoldNormalized(stack: seq<string>, ps: seq<string>)
    requires AllSegments(ps)
    ensures Fold(Normalized(stack), Normalized(ps)) == Normalized(RawFold(stack, ps))
    decreases |ps|
  {
    if ps == [] {
    } else {
      assert ps == [ps[0]] + ps[1..];
      DotsNormalized(ps[0]);
      var kept := if OneDot(ps[0]) then stack else if TwoDots(ps[0]) then Pop(stack) else stack + [ps[0]];
      assert Normalized(kept) ==
             if OneDot(ps[0]) then Normalized(stack) else if TwoDots(ps[0]) then Pop(Normalized(stack))
             else Normalized(stack) + [Normalize(ps[0])];
      assert Normalized(ps)[1..] == Normalized(ps[1..]);
      var next := if EncodedDots(ps[0]) && |ps| == 1 then kept + ["/"] else kept;
      assert Normalize("/") == "/";
      assert Normalized(kept + ["/"]) == Normalized(kept) + ["/"];
      FoldNormalized(next, ps[1..]);
    }
  }

  /** Percent normalization followed by dot removal yields the surviving raw segments, each
      normalized. */
  lemma RemoveNormalized(path: string)
    requires Absolute(path)
    ensures Absolute(Normalize(path)) && Absolute(Remove(Normalize(path)))
    ensures Split(Remove(Normalize(path))) == Normalized(Survivors(path))
  {
    SplitNormalized(path);
    SplitJoins(path);
    RemoveIsFold(Normalize(path));
    FoldNormalized([], Split(path));
    assert Normalized([]) == [];
  }

  lemma {:induction false} RawFoldMembers(stack: seq<string>, ps: seq<string>)
    requires AllSegments(stack) && AllSegments(ps) && forall p :: p in stack ==> !EncodedDots(p)
    ensures AllSegments(RawFold(stack, ps)) && forall p :: p in RawFold(stack, ps) ==> !EncodedDots(p)
    decreases |ps|
  {
    if ps == [] {
    } else {
      assert ps == [ps[0]] + ps[1..];
      var kept := if OneDot(ps[0]) then stack else if TwoDots(ps[0]) then Pop(stack) else stack + [ps[0]];
      RawFoldMembers(if EncodedDots(ps[0]) && |ps| == 1 then kept + ["/"] else kept, ps[1..]);
    }
  }

  lemma SurvivorIsSegment(path: string)
    requires Absolute(path)
    ensures forall p :: p in Survivors(path) ==> IsSegment(p) && !EncodedDots(p)
  {
    SplitJoins(path);
    RawFoldMembers([], Split(path));
  }

  lemma DotsRemain(p: string)
    requires IsSegment(p) && !EncodedDots(p)
    ensures EncodedDots(Normalize(p)) <==> SpellsDots(p)
  {
    NormalizedSegment(p);
    DecodeNormalized(p[1..]);
    MergedLengths(p[1..]);
  }

  /** Percent normalization followed by dot removal leaves no dot segment, not even in encoded
      form, exactly when no surviving segment spells one with a stray percent sign. */
  lemma NoEncodedDotSegment(path: string)
    requires Absolute(path)
    ensures Absolute(Normalize(path)) && Absolute(Remove(Normalize(path)))
    ensures (forall q :: q in Split(Remove(Normalize(path))) ==> !EncodedDots(q)) <==>
            (forall p :: p in Survivors(path) ==> !SpellsDots(p))
  {
    RemoveNormalized(path);
    SurvivorIsSegment(path);
    NormalizedMembers(Survivors(path));
    forall p | p in Survivors(path)
      ensures EncodedDots(Normalize(p)) <==> SpellsDots(p)
    {
      DotsRemain(p);
    }
  }

  /** A path on which an encoded dot segment remains: "/%%32e" becomes "/%2e". */
  lemma EncodedDotRemains(path: string)
    requires path == "/%%32e"
    ensures Remove(Normalize(path)) == "/%2e" && Decode("%2e") == [Byte(46)]
  {
    var s := path[1..];
    assert s == "%%32e" && s[1..] == "%32e" && s[1..][3..] == "e" && "e"[1..] == "";
    assert Normalize("e") == "e";
    assert Normalize("%32e") == "2" + Normalize("e");
    assert Normalize(s) == ['%'] + Normalize("%32e");
    assert Normalize(path) == ['/'] + Normalize(s);
    assert Normalize(path) == "/%2e";
    assert "%2e"[3..] == "";
    SplitOne("/%2e");
    RemoveFixesExactly("/%2e");
  }
}
