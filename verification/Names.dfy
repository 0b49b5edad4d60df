/** Field names: slash-terminated strings such as `/spec/node/`, and the
    component paths the rest of the project works on.

    The string functions follow the source byte by byte; the lemmas say that
    on well-formed names they are exactly concatenation, last-component removal
    and the prefix relation on component paths. */
module Names {
  import opened Results
  import Order

  type Path = seq<string>

  predicate IsLead(c: char) {
    'a' <= c <= 'z' || c == '_' || c == '-'
  }

  predicate IsTail(c: char) {
    IsLead(c) || '0' <= c <= '9'
  }

  /** `RE_CHILD`: `^[a-z_-][a-z0-9_-]*[a-z0-9]?$`. */
  predicate IsComponent(c: string) {
    c != "" && IsLead(c[0]) && forall i :: 1 <= i < |c| ==> IsTail(c[i])
  }

  /** The characters of a component, one by one. */
  lemma CharactersExactly(c: char)
    ensures IsLead(c) <==> c in "abcdefghijklmnopqrstuvwxyz_-"
    ensures IsTail(c) <==> c in "abcdefghijklmnopqrstuvwxyz_-0123456789"
  {
  }

  predicate IsPath(p: Path) {
    forall i :: 0 <= i < |p| ==> IsComponent(p[i])
  }

  /** The number of characters before the first slash. */
  function UpToSlash(s: string): (n: nat)
    ensures n <= |s|
    ensures '/' !in s[..n]
    ensures n < |s| ==> s[n] == '/'
  {
    if s == "" || s[0] == '/' then 0 else
      assert s[..1 + UpToSlash(s[1..])] == [s[0]] + s[1..][..UpToSlash(s[1..])];
      1 + UpToSlash(s[1..])
  }

  /** `RE`: `^/([a-z_-][a-z0-9_-]*[a-z0-9]?/)*$`. */
  predicate IsName(s: string) {
    s != "" && s[0] == '/' && IsNameTail(s[1..])
  }

  predicate IsNameTail(s: string)
    decreases |s|
  {
    s == "" ||
    var n := UpToSlash(s);
    n < |s| && IsComponent(s[..n]) && IsNameTail(s[n + 1..])
  }

  function Render(p: Path): (s: string) {
    "/" + RenderTail(p)
  }

  function RenderTail(p: Path): string {
    if p == [] then "" else p[0] + "/" + RenderTail(p[1..])
  }

  function Parse(s: string): Path
    requires IsName(s)
  {
    ParseTail(s[1..])
  }

  function ParseTail(s: string): Path
    requires IsNameTail(s)
    decreases |s|
  {
    if s == "" then [] else
      var n := UpToSlash(s);
      [s[..n]] + ParseTail(s[n + 1..])
  }

  lemma UpToSlashOf(c: string, rest: string)
    requires '/' !in c
    ensures UpToSlash(c + "/" + rest) == |c|
  {
    if c != "" {
      assert (c + "/" + rest)[1..] == c[1..] + "/" + rest;
      UpToSlashOf(c[1..], rest);
    }
  }

  /** Every component path renders to a name, and parses back. */
  lemma {:induction false} RenderTailParses(p: Path)
    requires IsPath(p)
    ensures IsNameTail(RenderTail(p)) && ParseTail(RenderTail(p)) == p
  {
    if p != [] {
      RenderTailParses(p[1..]);
      UpToSlashOf(p[0], RenderTail(p[1..]));
      var s := RenderTail(p);
      assert s[..|p[0]|] == p[0] && s[|p[0]| + 1..] == RenderTail(p[1..]);
    }
  }

  lemma RenderParses(p: Path)
    requires IsPath(p)
    ensures IsName(Render(p)) && Parse(Render(p)) == p
  {
    RenderTailParses(p);
    assert Render(p)[1..] == RenderTail(p);
  }

  lemma {:induction false} ParseTailRenders(s: string)
    requires IsNameTail(s)
    ensures IsPath(ParseTail(s)) && RenderTail(ParseTail(s)) == s
    decreases |s|
  {
    if s != "" {
      var n := UpToSlash(s);
      var head, rest := s[..n], s[n + 1..];
      ParseTailRenders(rest);
      ConsTail(head, ParseTail(rest));
      assert ParseTail(s) == [head] + ParseTail(rest);
      SplitAtSlash(s, n);
    }
  }

  lemma SplitAtSlash(s: string, n: nat)
    requires n < |s| && s[n] == '/'
    ensures s == s[..n] + "/" + s[n + 1..]
  {
  }

  lemma ConsTail(c: string, p: Path)
    requires IsComponent(c) && IsPath(p)
    ensures IsPath([c] + p) && RenderTail([c] + p) == c + "/" + RenderTail(p)
  {
    assert ([c] + p)[1..] == p;
  }

  /** Names and component paths are in bijection. */
  lemma ParseRenders(s: string)
    requires IsName(s)
    ensures IsPath(Parse(s)) && Render(Parse(s)) == s
  {
    ParseTailRenders(s[1..]);
    assert s == "/" + s[1..];
  }

  lemma RenderInjective(p: Path, q: Path)
    requires IsPath(p) && IsPath(q) && Render(p) == Render(q)
    ensures p == q
  {
    RenderParses(p);
    RenderParses(q);
  }

  lemma {:induction false} RenderTailConcat(p: Path, q: Path)
    ensures RenderTail(p + q) == RenderTail(p) + RenderTail(q)
  {
    if p == [] {
      assert p + q == q;
    } else {
      assert (p + q)[1..] == p[1..] + q;
      RenderTailConcat(p[1..], q);
    }
  }

  datatype NameError = MalformedName(name: string)

  function AssertName(s: string): Result<(), NameError> {
    if IsName(s) then Ok(()) else Err(MalformedName(s))
  }

  /** `merge_name`: drop the parent's last slash and append the name. */
  function MergeName(parent: string, name: string): Result<string, NameError> {
    if AssertName(parent).Err? then Err(AssertName(parent).error)
    else if AssertName(name).Err? then Err(AssertName(name).error)
    else Ok(parent[..|parent| - 1] + name)
  }

  /** Merging names is concatenation of paths, so it is associative with
      identity `/`; it fails only on malformed names. */
  lemma MergeNameConcatenates(p: Path, q: Path)
    requires IsPath(p) && IsPath(q)
    ensures MergeName(Render(p), Render(q)) == Ok(Render(p + q))
  {
    RenderParses(p);
    RenderParses(q);
    MergeIsConcat(p, q);
  }

  lemma MergeIsConcat(p: Path, q: Path)
    ensures Render(p)[..|Render(p)| - 1] + Render(q) == Render(p + q)
  {
    var x := Render(p)[..|Render(p)| - 1];
    calc {
      Render(p + q);
      { RenderTailConcat(p, q); }
      "/" + (RenderTail(p) + RenderTail(q));
      Render(p) + RenderTail(q);
      { RenderEndsWithSlash(p); }
      (x + "/") + RenderTail(q);
      x + Render(q);
    }
  }

  lemma {:induction false} RenderEndsWithSlash(p: Path)
    ensures Render(p) == Render(p)[..|Render(p)| - 1] + "/"
  {
    if p != [] {
      var front := p[..|p| - 1];
      assert p == front + [p[|p| - 1]];
      RenderTailConcat(front, [p[|p| - 1]]);
      assert RenderTail([p[|p| - 1]]) == p[|p| - 1] + "/";
    }
  }

  lemma MergeNameIdentity(a: string)
    requires IsName(a)
    ensures MergeName("/", a) == Ok(a) && MergeName(a, "/") == Ok(a)
  {
    ParseRenders(a);
    assert Render([]) == "/";
    assert [] + Parse(a) == Parse(a) && Parse(a) + [] == Parse(a);
    MergeNameConcatenates([], Parse(a));
    MergeNameConcatenates(Parse(a), []);
  }

  lemma MergeNameIsName(a: string, b: string)
    requires IsName(a) && IsName(b)
    ensures MergeName(a, b).Ok? && IsName(MergeName(a, b).value)
    ensures Parse(MergeName(a, b).value) == Parse(a) + Parse(b)
  {
    ParseRenders(a);
    ParseRenders(b);
    MergeNameConcatenates(Parse(a), Parse(b));
    RenderParses(Parse(a) + Parse(b));
  }

  lemma MergeNameAssociative(a: string, b: string, c: string)
    requires IsName(a) && IsName(b) && IsName(c)
    ensures MergeName(a, b).Ok? && MergeName(b, c).Ok?
    ensures MergeName(MergeName(a, b).value, c).Ok?
    ensures MergeName(MergeName(a, b).value, c) == MergeName(a, MergeName(b, c).value)
  {
    MergeNameIsName(a, b);
    MergeNameIsName(b, c);
    var ab, bc := MergeName(a, b).value, MergeName(b, c).value;
    MergeNameIsName(ab, c);
    MergeNameIsName(a, bc);
    assert Parse(a) + Parse(b) + Parse(c) == Parse(a) + (Parse(b) + Parse(c));
    ParseRenders(MergeName(ab, c).value);
    ParseRenders(MergeName(a, bc).value);
  }

  /** The position of the last slash: the first match of `rmatch_indices('/')`. */
  function LastSlash(s: string): (i: Option<nat>)
    ensures i.Some? ==> i.value < |s| && s[i.value] == '/' && '/' !in s[i.value + 1..]
    ensures i.None? ==> '/' !in s
  {
    if s == "" then None
    else if s[|s| - 1] == '/' then Some(|s| - 1)
    else
      assert s == s[..|s| - 1] + [s[|s| - 1]];
      var i := LastSlash(s[..|s| - 1]);
      assert i.Some? ==> s[i.value + 1..] == s[..|s| - 1][i.value + 1..] + [s[|s| - 1]];
      i
  }

  /** `parent_name`: everything up to and including the second slash from the end. */
  function ParentName(name: string): Option<string> {
    match LastSlash(name)
    case None => None
    case Some(last) =>
      match LastSlash(name[..last])
      case None => None
      case Some(second) => Some(name[..second + 1])
  }

  lemma {:induction false} LastSlashOf(a: string, b: string)
    requires '/' !in b
    ensures LastSlash(a + "/" + b) == Some(|a|)
  {
    if b != "" {
      LastSlashOf(a, b[..|b| - 1]);
      assert (a + "/" + b)[..|a + "/" + b| - 1] == a + "/" + b[..|b| - 1];
    }
  }

  lemma ParentNameOf(f: string, c: string)
    requires '/' !in c
    ensures ParentName(f + "/" + c + "/") == Some(f + "/")
  {
    var s := f + "/" + c;
    LastSlashOf(s, "");
    assert s + "/" + "" == f + "/" + c + "/";
    assert (f + "/" + c + "/")[..|s|] == s;
    LastSlashOf(f, c);
    assert (f + "/" + c + "/")[..|s|] == s;
    assert (f + "/" + c + "/")[..|f| + 1] == f + "/";
  }

  /** `parent_name` removes the last component. */
  lemma ParentOfExtension(front: Path, c: string)
    requires '/' !in c
    ensures ParentName(Render(front + [c])) == Some(Render(front))
  {
    var f := Render(front)[..|Render(front)| - 1];
    RenderEndsWithSlash(front);
    calc {
      Render(front + [c]);
      { RenderTailConcat(front, [c]); }
      Render(front) + RenderTail([c]);
      { assert RenderTail([c]) == c + "/"; }
      (f + "/") + (c + "/");
      f + "/" + c + "/";
    }
    ParentNameOf(f, c);
  }

  /** The root has no parent; any other name has its path without the last component. */
  lemma ParentNameDropsLast(p: Path)
    requires IsPath(p)
    ensures ParentName(Render(p)) == if p == [] then None else Some(Render(p[..|p| - 1]))
  {
    if p == [] {
      LastSlashOf("", "");
      assert Render(p) == "" + "/" + "";
    } else {
      NoSlash(p[|p| - 1]);
      assert p == p[..|p| - 1] + [p[|p| - 1]];
      ParentOfExtension(p[..|p| - 1], p[|p| - 1]);
    }
  }

  /** Merging commutes with taking parents: the parent of a merged name is the
      merge with the parent. */
  lemma ParentOfMerge(p: Path, front: Path, c: string)
    requires IsPath(p) && IsPath(front) && IsComponent(c)
    ensures MergeName(Render(p), Render(front + [c])) == Ok(Render(p + (front + [c])))
    ensures ParentName(Render(p + (front + [c]))) == Some(Render(p + front))
    ensures MergeName(Render(p), Render(front)) == Ok(Render(p + front))
  {
    assert ParentName(Render(p + (front + [c]))) == Some(Render(p + front)) by {
      NoSlash(c);
      ParentOfExtension(p + front, c);
      assert p + (front + [c]) == p + front + [c];
    }
    MergeNameConcatenates(p, front + [c]);
    MergeNameConcatenates(p, front);
  }

  /** `starts_with` on names is the prefix relation on paths: the trailing slash
      keeps `/ab/` from counting as a descendant of `/a/`. */
  lemma {:induction false} StartsWithIsPrefix(p: Path, q: Path)
    requires IsPath(p) && IsPath(q)
    ensures Render(p) <= Render(q) <==> p <= q
  {
    if p <= q {
      assert q == p + q[|p|..];
      RenderTailConcat(p, q[|p|..]);
      assert Render(q) == Render(p) + RenderTail(q[|p|..]);
    } else if Render(p) <= Render(q) {
      assert Render(p)[1..] == RenderTail(p) && Render(q)[1..] == RenderTail(q);
      TailPrefix(p, q);
    }
  }

  lemma {:induction false} TailPrefix(p: Path, q: Path)
    requires IsPath(p) && IsPath(q) && RenderTail(p) <= RenderTail(q)
    ensures p <= q
  {
    if p != [] {
      FirstComponentAgrees(p, q);
      TailPrefix(p[1..], q[1..]);
      assert p == [p[0]] + p[1..] && q == [q[0]] + q[1..];
    }
  }

  lemma NoSlash(c: string)
    requires IsComponent(c)
    ensures '/' !in c
  {
  }

  lemma FirstComponentAgrees(p: Path, q: Path)
    requires IsPath(p) && IsPath(q) && p != [] && RenderTail(p) <= RenderTail(q)
    ensures q != [] && p[0] == q[0] && RenderTail(p[1..]) <= RenderTail(q[1..])
  {
    var s, t := RenderTail(p), RenderTail(q);
    assert s == p[0] + "/" + RenderTail(p[1..]);
    NoSlash(p[0]);
    if q != [] {
      NoSlash(q[0]);
      assert t == q[0] + "/" + RenderTail(q[1..]);
      SameHead(p[0], RenderTail(p[1..]), q[0], RenderTail(q[1..]));
    }
  }

  lemma SameHead(c: string, a: string, d: string, b: string)
    requires '/' !in c && '/' !in d
    requires c + "/" + a <= d + "/" + b
    ensures c == d && a <= b
  {
    var s, t := c + "/" + a, d + "/" + b;
    assert t == s + t[|s|..];
    assert t == c + "/" + (a + t[|s|..]);
    UpToSlashOf(c, a + t[|s|..]);
    UpToSlashOf(d, b);
    assert t[..|c|] == c && t[..|d|] == d;
    assert t[|c| + 1..] == b && s[|c| + 1..] == a;
  }
}
