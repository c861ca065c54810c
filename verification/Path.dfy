/** Absolute Unix paths: a two-ended iterator over the components, normalisation,
    join and parent. The meaning of a path is the list of its non-empty parts.
 */
module Path {

  import opened Common

  // ----- parts -----

  /** Position of the first slash from `i` on, or the length. */
  function FirstSlashFrom(s: string, i: nat): (k: nat)
    requires i <= |s|
    ensures i <= k <= |s| && (forall j :: i <= j < k ==> s[j] != '/') && (k < |s| ==> s[k] == '/')
    decreases |s| - i
  {
    if i == |s| || s[i] == '/' then i else FirstSlashFrom(s, i + 1)
  }

  function FirstSlash(s: string): (k: nat)
    ensures k <= |s| && (forall j :: 0 <= j < k ==> s[j] != '/') && (k < |s| ==> s[k] == '/')
  {
    FirstSlashFrom(s, 0)
  }

  /** Position behind the last slash before `n`, or zero. */
  function LastSlashBefore(s: string, n: nat): (k: nat)
    requires n <= |s|
    ensures k <= n && (forall i :: k <= i < n ==> s[i] != '/') && (k > 0 ==> s[k - 1] == '/')
  {
    if n == 0 || s[n - 1] == '/' then n else LastSlashBefore(s, n - 1)
  }

  function LastSlash(s: string): (k: nat)
    ensures k <= |s| && (forall i :: k <= i < |s| ==> s[i] != '/') && (k > 0 ==> s[k - 1] == '/')
  {
    LastSlashBefore(s, |s|)
  }

  function NonEmpty(s: string): seq<string> {
    if s == "" then [] else [s]
  }

  /** The non-empty parts between slashes. */
  function Parts(s: string): seq<string>
    decreases |s|
  {
    var k := FirstSlash(s);
    if k == |s| then NonEmpty(s) else NonEmpty(s[..k]) + Parts(s[k + 1..])
  }

  predicate NoSlash(s: string) {
    forall i :: 0 <= i < |s| ==> s[i] != '/'
  }

  lemma {:induction false} FirstSlashFromIs(s: string, i: nat, k: nat)
    requires i <= k <= |s| && (forall j :: i <= j < k ==> s[j] != '/') && (k < |s| ==> s[k] == '/')
    ensures FirstSlashFrom(s, i) == k
    decreases k - i
  {
    if i < k {
      FirstSlashFromIs(s, i + 1, k);
    }
  }

  lemma FirstSlashIs(s: string, k: nat)
    requires k <= |s| && NoSlash(s[..k]) && (k < |s| ==> s[k] == '/')
    ensures FirstSlash(s) == k
  {
    assert forall j :: 0 <= j < k ==> s[j] == s[..k][j];
    FirstSlashFromIs(s, 0, k);
  }

  lemma PartsNoSlash(s: string)
    requires NoSlash(s)
    ensures Parts(s) == NonEmpty(s)
  {
    FirstSlashIs(s, |s|);
  }

  /** Cutting at the first slash, and at the last. */
  lemma PartsFirst(s: string, k: nat)
    requires k == FirstSlash(s) < |s|
    ensures Parts(s) == NonEmpty(s[..k]) + Parts(s[k + 1..])
  {
  }

  lemma PartsCons(c: string, b: string)
    requires NoSlash(c)
    ensures Parts(c + "/" + b) == NonEmpty(c) + Parts(b)
  {
    var s := c + "/" + b;
    assert s[..|c|] == c && s[|c| + 1..] == b;
    FirstSlashIs(s, |c|);
    PartsFirst(s, |c|);
  }

  lemma AroundStep(c: string, d: string, b: string)
    requires NoSlash(c) && Parts(d + "/" + b) == Parts(d) + Parts(b)
    ensures Parts((c + "/" + d) + "/" + b) == Parts(c + "/" + d) + Parts(b)
  {
    var e := d + "/" + b;
    assert Parts((c + "/" + d) + "/" + b) == NonEmpty(c) + Parts(e) by {
      assert (c + "/" + d) + "/" + b == c + "/" + e;
      PartsCons(c, e);
    }
    assert Parts(c + "/" + d) == NonEmpty(c) + Parts(d) by {
      PartsCons(c, d);
    }
    Assoc(NonEmpty(c), Parts(d), Parts(b));
  }

  lemma Assoc(x: seq<string>, y: seq<string>, z: seq<string>)
    ensures x + (y + z) == x + y + z
  {
  }

  /** A slash separates. */
  lemma {:induction false} PartsAround(a: string, b: string)
    ensures Parts(a + "/" + b) == Parts(a) + Parts(b)
    decreases |a|
  {
    var k := FirstSlash(a);
    if k == |a| {
      PartsCons(a, b);
      PartsNoSlash(a);
    } else {
      var c, d := Cut(a, k);
      PartsAround(d, b);
      AroundStep(c, d, b);
    }
  }

  lemma Cut(a: string, k: nat) returns (c: string, d: string)
    requires k == FirstSlash(a) < |a|
    ensures a == c + "/" + d && NoSlash(c)
  {
    c, d := a[..k], a[k + 1..];
  }

  lemma PartsTrailing(t: string)
    ensures Parts(t + "/") == Parts(t)
  {
    assert t + "/" == t + "/" + "";
    PartsAround(t, "");
  }

  lemma PartsSnoc(a: string, c: string)
    requires NoSlash(c) && c != ""
    ensures Parts(a + "/" + c) == Parts(a) + [c]
  {
    PartsAround(a, c);
    PartsNoSlash(c);
  }

  lemma PartsLast(s: string, k: nat)
    requires k == LastSlash(s) > 0
    ensures Parts(s) == Parts(s[..k - 1]) + NonEmpty(s[k..])
  {
    assert s == s[..k - 1] + "/" + s[k..];
    PartsAround(s[..k - 1], s[k..]);
    PartsNoSlash(s[k..]);
  }

  /** Parts are not empty and hold no slash. */
  predicate Proper(c: string) {
    c != "" && NoSlash(c)
  }

  lemma {:induction false} PartsProper(s: string)
    ensures forall i :: 0 <= i < |Parts(s)| ==> Proper(Parts(s)[i])
    decreases |s|
  {
    var k := FirstSlash(s);
    if k < |s| {
      PartsProper(s[k + 1..]);
    }
  }

  // ----- the iterator -----

  predicate Absolute(raw: string) {
    raw != "" && raw[0] == '/'
  }

  /** The components of a path: the parts behind its first character. */
  function Comps(raw: string): seq<string> {
    if raw == "" then [] else Parts(raw[1..])
  }

  /** The parts between two positions. */
  function Between(path: string, front: nat, back: nat): seq<string>
    requires back <= |path|
  {
    if front < back then Parts(path[front..back]) else []
  }

  lemma CutFront(path: string, front: nat, back: nat, pos: nat, component: string, next: nat)
    requires front < back <= |path| && pos == FirstSlash(path[front..back]) < back - front
    requires component == path[front..back][..pos] && next == front + pos + 1
    ensures Between(path, front, back) == NonEmpty(component) + Between(path, next, back)
  {
    var s := path[front..back];
    PartsFirst(s, pos);
    assert s[pos + 1..] == path[next..back];
  }

  lemma CutBack(path: string, front: nat, back: nat, next: nat, s: string, a: string, component: string)
    requires front <= next < back <= |path| && s == path[front..back] && a == path[front..next]
    requires Parts(s) == Parts(a) + NonEmpty(component)
    ensures Between(path, front, back) == Between(path, front, next) + NonEmpty(component)
  {
  }

  lemma LastCut(path: string, front: nat, back: nat, s: string, k: nat, component: string) returns (a: string)
    requires front < back <= |path| && s == path[front..back]
    requires k == LastSlash(s) > 0 && component == s[k..]
    ensures a == path[front..front + k - 1] && Parts(s) == Parts(a) + NonEmpty(component)
  {
    PartsLast(s, k);
    a := s[..k - 1];
    SliceOf(path, front, back, s, k - 1, a);
  }

  lemma SliceOf(path: string, front: nat, back: nat, s: string, m: nat, a: string)
    requires front <= back <= |path| && s == path[front..back] && m <= |s| && a == s[..m]
    ensures a == path[front..front + m]
  {
  }

  lemma NothingCut(path: string, front: nat, back: nat)
    requires front < back <= |path| && NoSlash(path[front..back])
    ensures Between(path, front, back) == NonEmpty(path[front..back]) + Between(path, back, back)
    ensures Between(path, front, back) == Between(path, front, front) + NonEmpty(path[front..back])
  {
    PartsNoSlash(path[front..back]);
  }

  class Components {
    const path: string
    var front: nat
    var back: nat

    ghost predicate Valid()
      reads this
    {
      back <= |path| && (front <= back || back == 0)
    }

    /** What the iterator has still to yield. */
    ghost function Rest(): seq<string>
      requires Valid()
      reads this
    {
      Between(path, front, back)
    }

    constructor (raw: string)
      ensures Valid() && path == raw && Rest() == Comps(raw)
    {
      path := raw;
      front := 1;
      back := |raw|;
      new;
      if |raw| > 0 {
        assert raw[1..|raw|] == raw[1..];
      }
    }

    method Next() returns (r: Option<string>)
      requires Valid()
      modifies this
      ensures Valid()
      ensures old(Rest()) == [] ==> r == None && Rest() == []
      ensures old(Rest()) != [] ==> r == Some(old(Rest())[0]) && Rest() == old(Rest())[1..]
    {
      while front < back
        invariant Valid() && Rest() == old(Rest())
        decreases back - front
      {
        var component;
        component, front := FrontTurn(path, front, back);
        if component != "" {
          return Some(component);
        }
      }
      return None;
    }

    method NextBack() returns (r: Option<string>)
      requires Valid()
      modifies this
      ensures Valid()
      ensures old(Rest()) == [] ==> r == None && Rest() == []
      ensures old(Rest()) != [] ==>
                r == Some(old(Rest())[|old(Rest())| - 1]) && Rest() == old(Rest())[..|old(Rest())| - 1]
    {
      while front < back
        invariant Valid() && Rest() == old(Rest())
        decreases back - front
      {
        var component;
        component, back := BackTurn(path, front, back);
        if component != "" {
          assert (Rest() + [component])[..|Rest()|] == Rest();
          return Some(component);
        }
      }
      return None;
    }
  }

  /** One turn of the loop from the front: the text up to the first slash, or all. */
  method FrontTurn(path: string, front: nat, back: nat) returns (component: string, next: nat)
    requires front < back <= |path|
    ensures front < next <= back
    ensures Between(path, front, back) == NonEmpty(component) + Between(path, next, back)
  {
    var remaining := path[front..back];
    var pos := FirstSlash(remaining);
    if pos < |remaining| {
      component, next := remaining[..pos], front + pos + 1;
      CutFront(path, front, back, pos, component, next);
    } else {
      component, next := remaining, back;
      NothingCut(path, front, back);
    }
  }

  method BackTurn(path: string, front: nat, back: nat) returns (component: string, next: nat)
    requires front < back <= |path|
    ensures front <= next < back
    ensures Between(path, front, back) == Between(path, front, next) + NonEmpty(component)
  {
    var remaining := path[front..back];
    var behind := LastSlash(remaining);
    if behind > 0 {
      component, next := remaining[behind..], front + behind - 1;
      ghost var a := LastCut(path, front, back, remaining, behind, component);
      CutBack(path, front, back, next, remaining, a, component);
    } else {
      component, next := remaining, front;
      NothingCut(path, front, back);
    }
  }

  lemma TakeFront(a: seq<string>, rest: seq<string>, b: seq<string>)
    requires rest != []
    ensures a + rest + b == (a + [rest[0]]) + rest[1..] + b
  {
    assert rest == [rest[0]] + rest[1..];
  }

  lemma TakeBack(a: seq<string>, rest: seq<string>, b: seq<string>)
    requires rest != []
    ensures a + rest + b == a + rest[..|rest| - 1] + ([rest[|rest| - 1]] + b)
  {
    assert rest == rest[..|rest| - 1] + [rest[|rest| - 1]];
  }

  /** Any mix of calls at both ends yields the parts, each once and in place. */
  method Interleave(raw: string, fromFront: seq<bool>) returns (fronts: seq<string>, backs: seq<string>, it: Components)
    ensures it.Valid() && fronts + it.Rest() + Reverse(backs) == Comps(raw)
    ensures it.Rest() != [] ==> |fronts| + |backs| == |fromFront|
  {
    it := new Components(raw);
    fronts, backs := [], [];
    for i := 0 to |fromFront|
      invariant fresh(it) && it.Valid() && fronts + it.Rest() + Reverse(backs) == Comps(raw)
      invariant it.Rest() != [] ==> |fronts| + |backs| == i
    {
      ghost var rest := it.Rest();
      if fromFront[i] {
        var c := it.Next();
        if c.Some? {
          TakeFront(fronts, rest, Reverse(backs));
          fronts := fronts + [c.value];
        }
      } else {
        var c := it.NextBack();
        if c.Some? {
          TakeBack(fronts, rest, Reverse(backs));
          ReverseSnoc(backs, c.value);
          backs := backs + [c.value];
        }
      }
    }
  }

  // ----- normalisation -----

  /** One component applied to the stack of directories. */
  function Apply(stack: seq<string>, c: string): seq<string> {
    if c == "." then stack
    else if c == ".." then (if stack == [] then [] else stack[..|stack| - 1])
    else stack + [c]
  }

  /** The directory reached from `stack` along `cs`. */
  function Walk(stack: seq<string>, cs: seq<string>): seq<string>
    decreases |cs|
  {
    if cs == [] then stack else Walk(Apply(stack, cs[0]), cs[1..])
  }

  function Joined(stack: seq<string>): string {
    if stack == [] then "" else if |stack| == 1 then stack[0]
    else Joined(stack[..|stack| - 1]) + "/" + stack[|stack| - 1]
  }

  function Render(stack: seq<string>): string {
    "/" + Joined(stack)
  }

  function Normal(raw: string): string {
    Render(Walk([], Comps(raw)))
  }

  /** The components that remain of `cs`, read from the end, when the next `skip` names are
      cancelled: ".." cancels the nearest name before it that is left. */
  function Kept(cs: seq<string>, skip: nat): seq<string> {
    if cs == [] then [] else
      var front, c := cs[..|cs| - 1], cs[|cs| - 1];
      if c == "." then Kept(front, skip)
      else if c == ".." then Kept(front, skip + 1)
      else if skip > 0 then Kept(front, skip - 1)
      else Kept(front, 0) + [c]
  }

  function WithoutLast(l: seq<string>, n: nat): seq<string> {
    if n < |l| then l[..|l| - n] else []
  }

  lemma WalkSnoc(stack: seq<string>, cs: seq<string>, c: string)
    ensures Walk(stack, cs + [c]) == Apply(Walk(stack, cs), c)
  {
    WalkConcat(stack, cs, [c]);
  }

  /** The walk from the front and the reading from the end agree. */
  lemma {:induction false} WalkIsKept(cs: seq<string>, skip: nat)
    ensures Kept(cs, skip) == WithoutLast(Walk([], cs), skip)
  {
    if cs != [] {
      var front, c := cs[..|cs| - 1], cs[|cs| - 1];
      assert cs == front + [c];
      WalkSnoc([], front, c);
      WalkIsKept(front, if c == ".." then skip + 1 else if c == "." || skip == 0 then skip else skip - 1);
    }
  }

  method Resolve(raw: string) returns (stack: seq<string>)
    ensures stack == Walk([], Comps(raw))
  {
    var it := new Components(raw);
    stack := [];
    var c := it.Next();
    while c.Some?
      invariant fresh(it) && it.Valid()
      invariant c.Some? ==> Walk([], Comps(raw)) == Walk(Apply(stack, c.value), it.Rest())
      invariant c == None ==> Walk([], Comps(raw)) == stack
      decreases c.Some?, |it.Rest()|
    {
      match c.value {
        case "." =>
        case ".." =>
          if stack != [] {
            stack := stack[..|stack| - 1];
          }
        case component => stack := stack + [component];
      }
      c := it.Next();
    }
  }

  /** No slash but the first is followed by a slash or by nothing. */
  predicate Tight(s: string) {
    forall i :: 0 < i < |s| && s[i] == '/' ==> s[i - 1] != '/' && i + 1 < |s|
  }

  method Normalize(raw: string) returns (result: string)
    ensures result == Normal(raw)
    ensures Absolute(result) && Tight(result) && Comps(result) == Kept(Comps(raw), 0)
  {
    NormalIsClean(raw);
    WalkIsKept(Comps(raw), 0);
    var stack := Resolve(raw);
    result := "/";
    for i := 0 to |stack|
      invariant result == "/" + Joined(stack[..i])
    {
      JoinedMore(stack, i);
      if i > 0 {
        result := result + "/";
      }
      result := result + stack[i];
    }
    assert stack[..|stack|] == stack;
  }

  lemma JoinedMore(stack: seq<string>, i: nat)
    requires i < |stack|
    ensures "/" + Joined(stack[..i + 1]) == "/" + Joined(stack[..i]) + (if i > 0 then "/" else "") + stack[i]
  {
    assert stack[..i + 1][..i] == stack[..i];
  }

  /** A component that stands for a directory. */
  predicate Name(c: string) {
    Proper(c) && c != "." && c != ".."
  }

  predicate Names(l: seq<string>) {
    forall i :: 0 <= i < |l| ==> Name(l[i])
  }

  lemma {:induction false} WalkNames(stack: seq<string>, cs: seq<string>)
    requires Names(stack) && forall i :: 0 <= i < |cs| ==> Proper(cs[i])
    ensures Names(Walk(stack, cs))
    decreases |cs|
  {
    if cs != [] {
      WalkNames(Apply(stack, cs[0]), cs[1..]);
    }
  }

  lemma {:induction false} WalkConcat(stack: seq<string>, a: seq<string>, b: seq<string>)
    ensures Walk(stack, a + b) == Walk(Walk(stack, a), b)
    decreases |a|
  {
    if a == [] {
      assert a + b == b;
    } else {
      assert (a + b)[1..] == a[1..] + b;
      WalkConcat(Apply(stack, a[0]), a[1..], b);
    }
  }

  /** Names just pile up. */
  lemma {:induction false} WalkOfNames(stack: seq<string>, l: seq<string>)
    requires Names(l)
    ensures Walk(stack, l) == stack + l
    decreases |l|
  {
    if l == [] {
      assert stack + l == stack;
    } else {
      WalkOfNames(stack + [l[0]], l[1..]);
      assert (stack + [l[0]]) + l[1..] == stack + l;
    }
  }

  lemma {:induction false} PartsJoined(l: seq<string>)
    requires Names(l)
    ensures Parts(Joined(l)) == l
  {
    if |l| == 1 {
      PartsNoSlash(l[0]);
    } else if |l| > 1 {
      var n := |l| - 1;
      PartsJoined(l[..n]);
      PartsSnoc(Joined(l[..n]), l[n]);
      assert l == l[..n] + [l[n]];
    }
  }

  /** The components of a rendered stack are the stack. */
  lemma CompsRender(l: seq<string>)
    requires Names(l)
    ensures Comps(Render(l)) == l
  {
    assert Render(l)[1..] == Joined(l);
    PartsJoined(l);
  }

  lemma {:induction false} JoinedTight(l: seq<string>)
    requires Names(l)
    ensures Tight(Render(l)) && (l != [] ==> Joined(l) != "" && Joined(l)[|Joined(l)| - 1] != '/')
  {
    if |l| > 1 {
      var n := |l| - 1;
      JoinedTight(l[..n]);
      TightSnoc(Render(l[..n]), l[n]);
      assert Render(l) == Render(l[..n]) + "/" + l[n];
    }
  }

  lemma TightSnoc(s: string, c: string)
    requires Tight(s) && s != "" && s[|s| - 1] != '/' && Proper(c)
    ensures Tight(s + "/" + c)
  {
  }

  /** A normalised path is absolute, has no slash too many, holds names only, and they are
      what the path leads to. */
  lemma NormalIsClean(raw: string)
    ensures Absolute(Normal(raw)) && Tight(Normal(raw)) && Names(Comps(Normal(raw)))
    ensures Comps(Normal(raw)) == Walk([], Comps(raw))
  {
    if raw != "" {
      PartsProper(raw[1..]);
    }
    WalkNames([], Comps(raw));
    CompsRender(Walk([], Comps(raw)));
    JoinedTight(Walk([], Comps(raw)));
  }

  lemma NormalIdempotent(raw: string)
    ensures Normal(Normal(raw)) == Normal(raw)
  {
    NormalIsClean(raw);
    var l := Comps(Normal(raw));
    WalkOfNames([], l);
    assert [] + l == l;
  }

  // ----- join -----

  function Join(raw: string, other: string): string {
    if other != "" && other[0] == '/' then other
    else if raw != "" && raw[|raw| - 1] == '/' then raw + other
    else raw + "/" + other
  }

  lemma JoinText(raw: string, other: string)
    requires Absolute(raw) && !Absolute(other)
    ensures Absolute(Join(raw, other))
    ensures Join(raw, other)[1..] == raw[1..] + (if raw[|raw| - 1] == '/' then "" else "/") + other
  {
  }

  lemma JoinParts(s: string, other: string, slash: bool)
    requires slash ==> s == "" || s[|s| - 1] == '/'
    ensures Parts(s + (if slash then "" else "/") + other) == Parts(s) + Parts(other)
  {
    if !slash {
      PartsAround(s, other);
    } else if s == "" {
      assert "" + "" + other == other;
    } else {
      assert s + "" + other == s + other;
      JoinBehindSlash(s, other);
    }
  }

  /** Joining a relative path appends its parts; an absolute one replaces the path. */
  lemma CompsJoin(raw: string, other: string)
    requires Absolute(raw)
    ensures Absolute(Join(raw, other))
    ensures Comps(Join(raw, other)) == (if Absolute(other) then [] else Comps(raw)) + Parts(other)
  {
    if Absolute(other) {
      CompsAbsolute(other);
    } else {
      JoinText(raw, other);
      JoinParts(raw[1..], other, raw[|raw| - 1] == '/');
    }
  }

  lemma JoinBehindSlash(s: string, other: string)
    requires s != "" && s[|s| - 1] == '/'
    ensures Parts(s + other) == Parts(s) + Parts(other)
  {
    var t := s[..|s| - 1];
    assert s == t + "/";
    PartsAround(t, other);
    PartsTrailing(t);
  }

  /** It does not matter whether a path is normalised before a join. */
  lemma NormalJoin(raw: string, other: string)
    requires Absolute(raw) && !Absolute(other)
    ensures Normal(Join(Normal(raw), other)) == Normal(Join(raw, other))
  {
    NormalIsClean(raw);
    CompsJoin(raw, other);
    CompsJoin(Normal(raw), other);
    var l := Comps(Normal(raw));
    WalkConcat([], Comps(raw), Parts(other));
    WalkConcat([], l, Parts(other));
    WalkOfNames([], l);
    assert [] + l == l;
  }

  lemma NormalOfJoin(raw: string, other: string)
    requires Absolute(raw) && !Absolute(other)
    ensures Comps(Normal(Join(raw, other))) == Walk(Comps(Normal(raw)), Parts(other))
  {
    NormalIsClean(raw);
    NormalIsClean(Join(raw, other));
    CompsJoin(raw, other);
    WalkConcat([], Comps(raw), Parts(other));
  }

  /** A normalised path is determined by its components. */
  lemma SameNormal(a: string, b: string)
    requires Comps(Normal(a)) == Comps(Normal(b))
    ensures Normal(a) == Normal(b)
  {
    NormalIsClean(a);
    NormalIsClean(b);
  }

  /** Joining a name goes to that entry. */
  lemma JoinName(raw: string, x: string)
    requires Absolute(raw) && Name(x)
    ensures Comps(Normal(Join(raw, x))) == Comps(Normal(raw)) + [x]
  {
    PartsNoSlash(x);
    NormalOfJoin(raw, x);
  }

  /** Joining ".." goes to the parent; at the root it stays there. */
  lemma JoinUp(raw: string)
    requires Absolute(raw)
    ensures Comps(Normal(Join(raw, ".."))) == WithoutLast(Comps(Normal(raw)), 1)
    ensures Parent(Normal(raw)).Some? ==> Comps(Normal(Join(raw, ".."))) == Comps(Parent(Normal(raw)).value)
  {
    assert Comps(Normal(Join(raw, ".."))) == WithoutLast(Comps(Normal(raw)), 1) by {
      PartsNoSlash("..");
      NormalOfJoin(raw, "..");
    }
    NormalIsClean(raw);
    ParentDropsLast(Normal(raw));
  }

  /** Joining "." stays, and so does going to an entry and up again. */
  lemma JoinStays(raw: string, x: string)
    requires Absolute(raw) && Name(x)
    ensures Normal(Join(raw, ".")) == Normal(raw) && Normal(Join(raw, x + "/..")) == Normal(raw)
  {
    PartsNoSlash(".");
    NormalOfJoin(raw, ".");
    SameNormal(Join(raw, "."), raw);
    PartsThere(x);
    NormalOfJoin(raw, x + "/..");
    var l := Comps(Normal(raw));
    WalkConcat(l, [x], [".."]);
    assert (l + [x])[..|l|] == l;
    SameNormal(Join(raw, x + "/.."), raw);
  }

  lemma PartsThere(x: string)
    requires Name(x)
    ensures Parts(x + "/..") == [x] + [".."] && !Absolute(x + "/..")
  {
    assert Parts(x) == [x] by {
      PartsNoSlash(x);
    }
    assert Parts(x + "/" + "..") == Parts(x) + [".."] by {
      PartsSnoc(x, "..");
    }
    assert x + "/.." == x + "/" + "..";
  }

  // ----- parent -----

  function TrimEnd(s: string): (t: string)
    ensures t <= s && (t != "" ==> t[|t| - 1] != '/')
  {
    if s != "" && s[|s| - 1] == '/' then TrimEnd(s[..|s| - 1]) else s
  }

  function Parent(raw: string): Option<string> {
    if raw == "/" then None else
      var k := LastSlash(TrimEnd(raw));
      if k == 0 || k == 1 then Some("/") else Some(raw[..k - 1])
  }

  lemma {:induction false} TrimParts(s: string)
    ensures Parts(TrimEnd(s)) == Parts(s)
  {
    if s != "" && s[|s| - 1] == '/' {
      var t := s[..|s| - 1];
      TrimParts(t);
      assert s == t + "/";
      PartsTrailing(t);
    }
  }

  /** The leading slash adds no part. */
  lemma CompsAbsolute(raw: string)
    requires Absolute(raw)
    ensures Comps(raw) == Parts(raw)
  {
    assert raw == "" + "/" + raw[1..];
    PartsAround("", raw[1..]);
  }

  lemma ParentOf(raw: string, k: nat)
    requires Absolute(raw) && k == LastSlash(TrimEnd(raw)) && TrimEnd(raw) != ""
    ensures k > 0 && k < |TrimEnd(raw)| && Parts(raw) == Parts(raw[..k - 1]) + [TrimEnd(raw)[k..]]
  {
    var t := TrimEnd(raw);
    assert t[0] == '/';
    TrimParts(raw);
    PartsLast(t, k);
    assert t[..k - 1] == raw[..k - 1];
  }

  /** Only the root "/" has no parent; otherwise the parent is an absolute path that
      lacks exactly the last component, if there is one. */
  lemma ParentDropsLast(raw: string)
    requires Absolute(raw)
    ensures Parent(raw) == None <==> raw == "/"
    ensures raw != "/" ==> Absolute(Parent(raw).value) && Parent(raw).value <= raw
    ensures raw != "/" ==>
              Comps(Parent(raw).value) == if Comps(raw) == [] then [] else Comps(raw)[..|Comps(raw)| - 1]
  {
    CompsAbsolute(raw);
    TrimParts(raw);
    assert raw[..1] == "/";
    if raw != "/" {
      var t := TrimEnd(raw);
      var k := LastSlash(t);
      if t != "" {
        ParentOf(raw, k);
        if k > 1 {
          CompsAbsolute(raw[..k - 1]);
        }
      }
    }
  }
}
