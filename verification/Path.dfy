/** resolve_path of the shell: a path made absolute, canonical and upper case. */
module Path {
  import opened Words

  const BUFFER: nat := 512
  const MAX_COMPONENTS: nat := 256
  const MAX_NAME: nat := 12

  // ---- tokens ----

  /** How many characters come before the first slash. */
  function WordLength(s: string): (n: nat)
    ensures n <= |s| && (n < |s| ==> s[n] == '/') && forall i :: 0 <= i < n ==> s[i] != '/'
  {
    if s == "" || s[0] == '/' then 0 else 1 + WordLength(s[1..])
  }

  /** The nonempty parts between slashes. */
  function Tokens(s: string): (r: seq<string>)
    decreases |s|
  {
    if s == "" then []
    else if s[0] == '/' then Tokens(s[1..])
    else
      var n := WordLength(s);
      [s[..n]] + Tokens(s[n..])
  }

  /** A path component: not empty and without a slash. */
  predicate Component(c: string) {
    c != "" && '/' !in c
  }

  lemma {:induction false} WordLengthIs(w: string, rest: string)
    requires '/' !in w && (rest == "" || rest[0] == '/')
    ensures WordLength(w + rest) == |w|
  {
    assert forall i :: 0 <= i < |w| ==> (w + rest)[i] == w[i] && w[i] in w;
    assert rest != "" ==> (w + rest)[|w|] == rest[0];
  }

  lemma {:induction false} TokensWord(w: string, rest: string)
    requires Component(w) && (rest == "" || rest[0] == '/')
    ensures Tokens(w + rest) == [w] + Tokens(rest)
  {
    WordLengthIs(w, rest);
    assert w[0] in w;
    assert (w + rest)[..|w|] == w && (w + rest)[|w|..] == rest;
  }

  lemma {:induction false} TokensAre(s: string)
    ensures forall t <- Tokens(s) :: Component(t)
    ensures 2 * |Tokens(s)| <= |s| + 1
    decreases |s|
  {
    if s != "" {
      if s[0] == '/' {
        TokensAre(s[1..]);
      } else {
        var n := WordLength(s);
        if n < |s| {
          TokensAre(s[n + 1..]);
          assert s[n..][1..] == s[n + 1..];
        } else {
          assert s[n..] == "";
        }
      }
    }
  }

  /** Where a slash stands between them the tokens of two texts do not run together. */
  lemma {:induction false} TokensConcat(a: string, b: string)
    requires a == "" || a[|a| - 1] == '/' || b == "" || b[0] == '/'
    ensures Tokens(a + b) == Tokens(a) + Tokens(b)
    decreases |a|
  {
    if a == "" {
      assert a + b == b;
    } else if a[0] == '/' {
      assert (a + b)[1..] == a[1..] + b;
      TokensConcat(a[1..], b);
    } else {
      var n := WordLength(a);
      var w, rest := a[..n], a[n..];
      assert rest == "" ==> a == w && rest + b == b;
      assert rest != "" ==> rest[|rest| - 1] == a[|a| - 1] && (rest + b)[0] == rest[0];
      TokensConcat(rest, b);
      FirstWord(w, rest, b);
      assert a == w + rest;
    }
  }

  lemma {:induction false} FirstWord(w: string, rest: string, b: string)
    requires Component(w) && (rest == "" || rest[0] == '/') && (rest + b == "" || (rest + b)[0] == '/')
    requires Tokens(rest + b) == Tokens(rest) + Tokens(b)
    ensures Tokens(w + rest + b) == Tokens(w + rest) + Tokens(b)
  {
    TokensWord(w, rest + b);
    TokensWord(w, rest);
    assert w + rest + b == w + (rest + b);
    Grouped([w], Tokens(rest), Tokens(b));
  }

  lemma Grouped(a: seq<string>, b: seq<string>, c: seq<string>)
    ensures a + b + c == a + (b + c)
  {
  }

  /** strtok with the delimiter "/": `rest` is the text behind its static pointer. */
  class Tokenizer {
    var rest: string

    constructor (s: string)
      ensures rest == s
    {
      rest := s;
    }

    method Next() returns (token: Option<string>)
      modifies this
      ensures token == None <==> Tokens(old(rest)) == []
      ensures token.Some? ==> Tokens(old(rest)) == [token.value] + Tokens(rest)
    {
      while rest != "" && rest[0] == '/'
        invariant Tokens(rest) == Tokens(old(rest))
        decreases |rest|
      {
        rest := rest[1..];
      }
      if rest == "" {
        return None;
      }
      var i := 0;
      while i < |rest| && rest[i] != '/'
        invariant i <= |rest| && forall j :: 0 <= j < i ==> rest[j] != '/'
      {
        i := i + 1;
      }
      var word, tail := rest[..i], rest[i..];
      assert rest == word + tail;
      TokensWord(word, tail);
      rest := if tail == "" then "" else tail[1..];
      token := Some(word);
    }
  }

  // ---- the stack of components ----

  function Push(stack: seq<string>, t: string): (r: seq<string>) {
    if t == "." then stack
    else if t == ".." then (if stack == [] then [] else stack[..|stack| - 1])
    else stack + [t]
  }

  function Walk(stack: seq<string>, ts: seq<string>): (r: seq<string>)
    decreases |ts|
  {
    if ts == [] then stack else Walk(Push(stack, ts[0]), ts[1..])
  }

  lemma {:induction false} WalkConcat(stack: seq<string>, a: seq<string>, b: seq<string>)
    ensures Walk(stack, a + b) == Walk(Walk(stack, a), b)
    decreases |a|
  {
    if a == [] {
      assert a + b == b;
    } else {
      assert (a + b)[1..] == a[1..] + b;
      WalkConcat(Push(stack, a[0]), a[1..], b);
    }
  }

  predicate Name(c: string) {
    Component(c) && c != "." && c != ".."
  }

  lemma {:induction false} WalkNames(stack: seq<string>, ts: seq<string>)
    requires (forall c <- stack :: Name(c)) && (forall t <- ts :: Component(t))
    ensures forall c <- Walk(stack, ts) :: Name(c)
    decreases |ts|
  {
    if ts != [] {
      WalkNames(Push(stack, ts[0]), ts[1..]);
    }
  }

  /** Names alone are just stacked. */
  lemma {:induction false} WalkOfNames(stack: seq<string>, ts: seq<string>)
    requires forall t <- ts :: Name(t)
    ensures Walk(stack, ts) == stack + ts
    decreases |ts|
  {
    if ts == [] {
      assert stack + ts == stack;
    } else {
      assert ts[0] in ts && Push(stack, ts[0]) == stack + [ts[0]];
      WalkOfNames(stack + [ts[0]], ts[1..]);
      assert stack + [ts[0]] + ts[1..] == stack + ts;
    }
  }

  // ---- upper case ----

  function UpperChar(c: char): (r: char) {
    if 'a' <= c <= 'z' then (c as int - 32) as char else c
  }

  function Upper(s: string): (u: string)
    ensures |u| == |s| && forall i :: 0 <= i < |s| ==> u[i] == UpperChar(s[i])
  {
    seq(|s|, i requires 0 <= i < |s| => UpperChar(s[i]))
  }

  function UpperAll(cs: seq<string>): (us: seq<string>)
    ensures |us| == |cs| && forall i :: 0 <= i < |cs| ==> us[i] == Upper(cs[i])
  {
    seq(|cs|, i requires 0 <= i < |cs| => Upper(cs[i]))
  }

  lemma UpperKeeps(s: string)
    ensures Upper(Upper(s)) == Upper(s)
    ensures Upper(s) == "." <==> s == "."
    ensures Upper(s) == ".." <==> s == ".."
    ensures Component(Upper(s)) <==> Component(s)
  {
    if i :| 0 <= i < |s| && s[i] == '/' {
      assert Upper(s)[i] == '/';
    }
    if s == "." || s == ".." {
      assert Upper(s) == s;
    }
    if Upper(s) == "." {
      assert s[0] == Upper(s)[0];
    }
    if Upper(s) == ".." {
      assert s[0] == Upper(s)[0] && s[1] == Upper(s)[1];
    }
  }

  lemma {:induction false} WalkUpper(stack: seq<string>, ts: seq<string>)
    ensures UpperAll(Walk(UpperAll(stack), ts)) == UpperAll(Walk(stack, ts))
    decreases |ts|
  {
    if ts == [] {
      forall i | 0 <= i < |stack| ensures Upper(Upper(stack[i])) == Upper(stack[i]) {
        UpperKeeps(stack[i]);
      }
    } else {
      PushUpper(stack, ts[0]);
      WalkUpper(Push(stack, ts[0]), ts[1..]);
      WalkUpper(Push(UpperAll(stack), ts[0]), ts[1..]);
    }
  }

  lemma PushUpper(stack: seq<string>, t: string)
    ensures UpperAll(Push(UpperAll(stack), t)) == UpperAll(Push(stack, t))
  {
    var a, b := UpperAll(Push(UpperAll(stack), t)), UpperAll(Push(stack, t));
    forall i | 0 <= i < |a| ensures a[i] == b[i] {
      if i < |stack| {
        UpperKeeps(stack[i]);
      }
    }
  }

  // ---- the canonical path ----

  function Slashed(cs: seq<string>): (r: string) {
    if cs == [] then "" else "/" + cs[0] + Slashed(cs[1..])
  }

  function Render(cs: seq<string>): (r: string) {
    if cs == [] then "/" else Slashed(cs)
  }

  lemma {:induction false} SlashWord(w: string, rest: string)
    requires Component(w) && (rest == "" || rest[0] == '/')
    ensures Tokens("/" + w + rest) == [w] + Tokens(rest)
  {
    TokensWord(w, rest);
    assert ("/" + w + rest)[1..] == w + rest;
  }

  lemma {:induction false} RenderTokens(cs: seq<string>)
    requires forall c <- cs :: Component(c)
    ensures Tokens(Slashed(cs)) == cs && Tokens(Render(cs)) == cs && (cs == [] || Slashed(cs)[0] == '/')
  {
    if cs != [] {
      RenderTokens(cs[1..]);
      SlashWord(cs[0], Slashed(cs[1..]));
      assert cs == [cs[0]] + cs[1..];
    } else {
      assert Tokens("/") == Tokens("/"[1..]);
    }
  }

  predicate Absolute(path: string) {
    path != "" && path[0] == '/'
  }

  function Joined(current: string, path: string): (r: string) {
    if Absolute(path) then path
    else if current != "" && current[|current| - 1] != '/' then current + "/" + path
    else current + path
  }

  /** The components that a path stands for, seen from a directory. */
  function Components(current: string, path: string): (r: seq<string>) {
    Walk([], Tokens(Joined(current, path)))
  }

  /** What resolve_path is for. */
  function Resolved(current: string, path: string): (r: string) {
    Render(UpperAll(Components(current, path)))
  }

  lemma {:induction false} JoinedTokens(current: string, path: string)
    ensures Tokens(Joined(current, path)) == (if Absolute(path) then [] else Tokens(current)) + Tokens(path)
  {
    if !Absolute(path) {
      if current != "" && current[|current| - 1] != '/' {
        TokensConcat(current + "/", path);
        TokensConcat(current, "/");
        assert Tokens("/") == Tokens("/"[1..]);
      } else {
        TokensConcat(current, path);
      }
    }
  }

  /** The result is canonical: absolute, and its components are names in upper case. */
  lemma {:induction false} ResolvedCanonical(current: string, path: string)
    ensures var r := Resolved(current, path);
      && Absolute(r) && Tokens(r) == UpperAll(Components(current, path)) && r == Render(Tokens(r))
      && forall c <- Tokens(r) :: Name(c) && Upper(c) == c
  {
    var cs := Components(current, path);
    TokensAre(Joined(current, path));
    WalkNames([], Tokens(Joined(current, path)));
    forall c <- UpperAll(cs) ensures Name(c) && Upper(c) == c {
      var i :| 0 <= i < |cs| && UpperAll(cs)[i] == c;
      assert cs[i] in cs && Name(cs[i]);
      UpperKeeps(cs[i]);
    }
    RenderTokens(UpperAll(cs));
  }

  /** Resolving a resolved path, from wherever, changes nothing. */
  lemma {:induction false} Idempotent(current: string, path: string, elsewhere: string)
    ensures Resolved(elsewhere, Resolved(current, path)) == Resolved(current, path)
  {
    ResolvedCanonical(current, path);
    var ts := Tokens(Resolved(current, path));
    WalkOfNames([], ts);
    assert [] + ts == ts && UpperAll(ts) == ts;
  }

  /** Going to a and from there to b is going to a/b. */
  predicate Composes(current: string, a: string, b: string) {
    Resolved(Resolved(current, a), b) == Resolved(current, a + "/" + b)
  }

  /** So it is for b relative and a not empty. */
  lemma {:induction false} Composed(current: string, a: string, b: string)
    requires a != "" && !Absolute(b)
    ensures Composes(current, a, b)
  {
    var r := Resolved(current, a);
    ResolvedCanonical(current, a);
    ComponentsFrom(r, b);
    ComponentsOn(current, a, b);
    WalkUpper(Components(current, a), Tokens(b));
  }

  lemma {:induction false} ComponentsOn(current: string, a: string, b: string)
    requires a != ""
    ensures Components(current, a + "/" + b) == Walk(Components(current, a), Tokens(b))
  {
    var from := if Absolute(a) then [] else Tokens(current);
    var path := a + "/" + b;
    assert path[0] == a[0];
    JoinedTokens(current, a);
    SlashTokens(a, b);
    JoinedTokens(current, path);
    Grouped(from, Tokens(a), Tokens(b));
    WalkConcat([], from + Tokens(a), Tokens(b));
  }

  lemma {:induction false} SlashTokens(a: string, b: string)
    ensures Tokens(a + "/" + b) == Tokens(a) + Tokens(b)
  {
    TokensConcat(a + "/", b);
    TokensConcat(a, "/");
    assert Tokens("/") == Tokens("/"[1..]);
  }

  /** From a canonical directory a relative path is walked on its components. */
  lemma {:induction false} ComponentsFrom(dir: string, path: string)
    requires !Absolute(path) && forall c <- Tokens(dir) :: Name(c)
    ensures Components(dir, path) == Walk(Tokens(dir), Tokens(path))
  {
    JoinedTokens(dir, path);
    WalkConcat([], Tokens(dir), Tokens(path));
    WalkOfNames([], Tokens(dir));
    assert [] + Tokens(dir) == Tokens(dir);
  }

  // ---- composition with an empty path ----

  /** How many of the ".." among the tokens leave the directory that the walk began in, when it
      is `depth` levels below that directory. */
  function Climbs(ts: seq<string>, depth: nat): (n: nat)
    decreases |ts|
  {
    if ts == [] then 0
    else if ts[0] == "." then Climbs(ts[1..], depth)
    else if ts[0] != ".." then Climbs(ts[1..], depth + 1)
    else if depth > 0 then Climbs(ts[1..], depth - 1)
    else 1 + Climbs(ts[1..], 0)
  }

  /** The components that n climbs leave of a directory. */
  function Climbed(dir: seq<string>, n: nat): (r: seq<string>)
    ensures |r| == if n <= |dir| then |dir| - n else 0
  {
    if n <= |dir| then dir[..|dir| - n] else []
  }

  /** A first step that leaves the directory. */
  lemma {:induction false} ClimbFirst(dir: seq<string>, below: seq<string>, ts: seq<string>)
    requires below == [] && ts != [] && ts[0] == ".."
    requires Walk(Climbed(dir, 1) + [], ts[1..]) == Climbed(Climbed(dir, 1), Climbs(ts[1..], 0)) + Walk([], ts[1..])
    ensures Walk(dir + below, ts) == Climbed(dir, Climbs(ts, 0)) + Walk(below, ts)
  {
    var up := Climbed(dir, 1);
    assert dir + below == dir && Push(dir, "..") == up && up + [] == up;
    assert Climbed(up, Climbs(ts[1..], 0)) == Climbed(dir, 1 + Climbs(ts[1..], 0));
  }

  /** A walk from a directory is the walk from nowhere, behind what its climbs leave. */
  lemma {:induction false} WalkFrom(dir: seq<string>, below: seq<string>, ts: seq<string>)
    ensures Walk(dir + below, ts) == Climbed(dir, Climbs(ts, |below|)) + Walk(below, ts)
    decreases |ts|
  {
    if ts != [] {
      var t, rest := ts[0], ts[1..];
      if t == ".." && below == [] {
        WalkFrom(Climbed(dir, 1), [], rest);
        ClimbFirst(dir, below, ts);
      } else {
        assert Push(dir + below, t) == dir + Push(below, t);
        WalkFrom(dir, Push(below, t), rest);
      }
    }
  }

  /** From an empty path the law holds exactly for those b that climb out of every component of
      the directory, because "" + "/" + b starts at the root. */
  lemma {:induction false} ComposedEmpty(current: string, b: string)
    requires !Absolute(b)
    ensures Composes(current, "", b) <==> Climbs(Tokens(b), 0) >= |Components(current, "")|
  {
    var r, ts := Resolved(current, ""), Tokens(b);
    ResolvedCanonical(current, "");
    var dir := Tokens(r);
    ComponentsFrom(r, b);
    WalkFrom(dir, [], ts);
    assert dir + [] == dir;
    FromRoot(current, b);
    var there, root := Climbed(dir, Climbs(ts, 0)) + Walk([], ts), Walk([], ts);
    assert Components(r, b) == there && Components(current, "" + "/" + b) == root;
    RenderedAlike(r, b, current, "" + "/" + b);
    if Climbs(ts, 0) >= |dir| {
      assert there == root;
    }
  }

  /** Canonical paths with the same text have as many components. */
  lemma {:induction false} RenderedAlike(c: string, p: string, d: string, q: string)
    ensures Resolved(c, p) == Resolved(d, q) ==> |Components(c, p)| == |Components(d, q)|
  {
    ResolvedCanonical(c, p);
    ResolvedCanonical(d, q);
  }

  lemma {:induction false} FromRoot(current: string, b: string)
    ensures Components(current, "" + "/" + b) == Walk([], Tokens(b))
  {
    var path := "" + "/" + b;
    JoinedTokens(current, path);
    assert path[0] == '/' && path[1..] == b && [] + Tokens(path) == Tokens(path);
  }

  /** The law holds for every relative b exactly if a is not empty or the directory is the root. */
  lemma {:induction false} ComposedIff(current: string, a: string)
    ensures (forall b {:trigger Composes(current, a, b)} :: !Absolute(b) ==> Composes(current, a, b))
      <==> a != "" || Components(current, "") == []
  {
    if a != "" {
      forall b | !Absolute(b) ensures Composes(current, a, b) {
        Composed(current, a, b);
      }
    } else {
      forall b | !Absolute(b) ensures Composes(current, a, b) <==> Climbs(Tokens(b), 0) >= |Components(current, "")| {
        ComposedEmpty(current, b);
      }
      TokensWord(".", "");
      assert "." + "" == "." && Tokens(".") == ["."] && Climbs(["."], 0) == Climbs(["."][1..], 0) == 0;
      assert Composes(current, a, ".") <==> Components(current, "") == [];
    }
  }

  // ---- the buffers of resolve_path ----

  /** strncat of at most n characters. */
  function Cat(dest: string, src: string, n: nat): (r: string) {
    dest + if |src| <= n then src else src[..n]
  }

  function Cut(s: string, n: nat): (r: string) {
    if |s| <= n then s else s[..n]
  }

  /** The combined path, as much as its buffer holds. */
  method Combine(current: string, path: string) returns (combined: string)
    requires |current| < BUFFER
    ensures combined == Cut(Joined(current, path), BUFFER - 1)
  {
    if path != "" && path[0] == '/' {
      combined := Cut(path, BUFFER - 1);
    } else {
      combined := current;
      if current != "" && current[|current| - 1] != '/' {
        combined := Cat(combined, "/", BUFFER - 1 - |combined|);
      }
      combined := Cat(combined, path, BUFFER - 1 - |combined|);
    }
  }

  /** The component stack; its 256 places suffice for every path the buffer can hold. */
  method Split(combined: string) returns (components: seq<string>)
    requires |combined| < BUFFER
    ensures components == Walk([], Tokens(combined))
  {
    components := [];
    TokensAre(combined);
    var strtok := new Tokenizer(combined);
    var token := strtok.Next();
    ghost var seen := 1;
    ghost var left := if token == None then [] else [token.value] + Tokens(strtok.rest);
    while token != None && |components| < MAX_COMPONENTS
      invariant left == if token == None then [] else [token.value] + Tokens(strtok.rest)
      invariant Walk(components, left) == Walk([], Tokens(combined))
      invariant |components| + |left| <= |Tokens(combined)|
      decreases |left|
    {
      assert left[0] == token.value && left[1..] == Tokens(strtok.rest);
      if token.value == "." {
      } else if token.value == ".." {
        if |components| > 0 {
          components := components[..|components| - 1];
        }
      } else {
        components := components + [token.value];
      }
      left := left[1..];
      token := strtok.Next();
    }
    assert left == [];
  }

  lemma {:induction false} SlashedMore(cs: seq<string>, c: string)
    ensures Slashed(cs + [c]) == Slashed(cs) + "/" + c
  {
    if cs == [] {
      assert [] + [c] == [c] && Slashed([c][1..]) == "";
    } else {
      SlashedMore(cs[1..], c);
      assert (cs + [c])[1..] == cs[1..] + [c];
    }
  }

  /** The components written out while they fit, one byte left for the end mark: the m
      longest row that does. */
  method Write(components: seq<string>, size: nat) returns (resolved: string, ghost m: nat)
    requires 2 <= size && forall c <- components :: |c| <= MAX_NAME
    ensures m <= |components| && resolved == Render(UpperAll(components[..m])) && |resolved| < size
    ensures m < |components| ==> |Slashed(UpperAll(components[..m + 1]))| >= size
  {
    var out := "/";
    var i := 0;
    assert UpperAll(components[..0]) == [];
    while i < |components|
      invariant i <= |components| && out == Slashed(UpperAll(components[..i])) + "/" && |out| <= size
    {
      var upper := Upper(components[i]);
      assert UpperAll(components[..i + 1]) == UpperAll(components[..i]) + [upper];
      SlashedMore(UpperAll(components[..i]), upper);
      if |out| + |upper| + 1 > size {
        break;
      }
      out := out + upper + "/";
      i := i + 1;
    }
    m := i;
    resolved := if |out| > 1 then out[..|out| - 1] else "/";
    if m > 0 {
      assert Slashed(UpperAll(components[..m])) ==
        "/" + UpperAll(components[..m])[0] + Slashed(UpperAll(components[..m])[1..]);
    }
  }

  /** resolve_path. Components above 12 characters would leave their buffer; with none, it is
      the canonical path if the buffers hold everything, and else that of what they hold. */
  method ResolvePath(current: string, path: string, size: nat) returns (resolved: string, ghost m: nat)
    requires 2 <= size && |current| < BUFFER
    requires forall c <- Walk([], Tokens(Cut(Joined(current, path), BUFFER - 1))) :: |c| <= MAX_NAME
    ensures var cs := Walk([], Tokens(Cut(Joined(current, path), BUFFER - 1)));
      && m <= |cs| && resolved == Render(UpperAll(cs[..m])) && |resolved| < size
      && (m < |cs| ==> |Slashed(UpperAll(cs[..m + 1]))| >= size)
    ensures |Joined(current, path)| < BUFFER && |Resolved(current, path)| < size ==> resolved == Resolved(current, path)
  {
    var combined := Combine(current, path);
    var components := Split(combined);
    resolved, m := Write(components, size);
    AllWritten(components, m, size);
  }

  lemma {:induction false} SlashedGrows(cs: seq<string>, k: nat)
    requires k <= |cs|
    ensures |Slashed(cs[..k])| <= |Slashed(cs)|
    decreases |cs|
  {
    if k == |cs| {
      assert cs[..k] == cs;
    } else {
      var l := |cs| - 1;
      SlashedGrows(cs[..l], k);
      SlashedMore(cs[..l], cs[l]);
      assert cs[..l] + [cs[l]] == cs && cs[..l][..k] == cs[..k];
    }
  }

  lemma {:induction false} AllWritten(cs: seq<string>, m: nat, size: nat)
    requires m <= |cs| && (m < |cs| ==> |Slashed(UpperAll(cs[..m + 1]))| >= size)
    ensures |Render(UpperAll(cs))| < size ==> cs[..m] == cs
  {
    if m < |cs| {
      SlashedGrows(UpperAll(cs), m + 1);
      assert UpperAll(cs)[..m + 1] == UpperAll(cs[..m + 1]);
    }
  }
}
