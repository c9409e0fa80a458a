/** File path surgery, for the POSIX build: one delimiter, names compared exactly. */
module Paths {
  import opened Options

  const DIR_DELIM := '/'

  predicate IsDirDelimiter(c: char) {
    c == DIR_DELIM
  }

  /** Where the run of non-delimiters that ends at `n` starts. */
  function NameStart(s: string, n: nat): (k: nat)
    requires n <= |s|
    ensures k <= n
  {
    if n > 0 && !IsDirDelimiter(s[n - 1]) then NameStart(s, n - 1) else n
  }

  lemma {:induction false} NameStartMeaning(s: string, n: nat)
    requires n <= |s|
    ensures var k := NameStart(s, n); IsRun(s[k..n]) && (k == 0 || IsDirDelimiter(s[k - 1]))
  {
    if n > 0 && !IsDirDelimiter(s[n - 1]) {
      NameStartMeaning(s, n - 1);
      var k := NameStart(s, n - 1);
      assert s[k..n] == s[k..n - 1] + [s[n - 1]];
    }
  }

  /** The components of a path: its maximal runs of non-delimiters. */
  function Components(s: string): seq<string>
    decreases |s|
  {
    if s == "" then []
    else if IsDirDelimiter(s[|s| - 1]) then Components(s[..|s| - 1])
    else var k := NameStart(s, |s|); Components(s[..k]) + [s[k..]]
  }

  ghost predicate AllDelimiters(s: string) {
    forall i :: 0 <= i < |s| ==> IsDirDelimiter(s[i])
  }

  predicate IsRun(s: string) {
    forall i :: 0 <= i < |s| ==> !IsDirDelimiter(s[i])
  }

  predicate IsName(s: string) {
    s != "" && IsRun(s)
  }

  /** No component straddles the seam between `a` and `b`. */
  predicate Seam(a: string, b: string) {
    a == "" || b == "" || IsDirDelimiter(a[|a| - 1]) || IsDirDelimiter(b[0])
  }

  lemma {:induction false} NameStartUnique(s: string, n: nat, k: nat)
    requires k <= n <= |s| && IsRun(s[k..n]) && (k == 0 || IsDirDelimiter(s[k - 1]))
    ensures NameStart(s, n) == k
  {
    if k < n {
      assert s[n - 1] == s[k..n][n - 1 - k];
      assert s[k..n - 1] == s[k..n][..n - 1 - k];
      NameStartUnique(s, n - 1, k);
    }
  }

  lemma LastName(s: string)
    requires s != "" && !IsDirDelimiter(s[|s| - 1])
    ensures var k := NameStart(s, |s|); k < |s| && IsName(s[k..]) && (k == 0 || IsDirDelimiter(s[k - 1]))
  {
    NameStartMeaning(s, |s|);
    var k := NameStart(s, |s|);
    assert s[k..|s|] == s[k..];
  }

  lemma ComponentsLast(s: string, k: nat)
    requires k < |s| && IsName(s[k..]) && (k == 0 || IsDirDelimiter(s[k - 1]))
    ensures Components(s) == Components(s[..k]) + [s[k..]]
  {
    assert s[k..|s|] == s[k..];
    NameStartUnique(s, |s|, k);
  }

  lemma Associative<T>(a: seq<T>, b: seq<T>, c: seq<T>)
    ensures (a + b) + c == a + (b + c)
  {}

  lemma {:induction false} ComponentsAppend(a: string, b: string)
    requires Seam(a, b)
    ensures Components(a + b) == Components(a) + Components(b)
    decreases |b|
  {
    if b == "" {
      assert a + b == a;
    } else if IsDirDelimiter(b[|b| - 1]) {
      ComponentsAppend(a, b[..|b| - 1]);
      AppendDelimiter(a, b);
    } else {
      var k := NameStart(b, |b|);
      LastName(b);
      ComponentsAppend(a, b[..k]);
      AppendName(a, b, k);
    }
  }

  lemma ComponentsDropDelimiter(s: string)
    requires EndsWithDelimiter(s)
    ensures Components(s) == Components(s[..|s| - 1])
  {}

  /** A trailing delimiter on `b` changes neither side of the append law. */
  lemma AppendDelimiter(a: string, b: string)
    requires EndsWithDelimiter(b)
    ensures Components(a + b) == Components(a + b[..|b| - 1]) && Components(b) == Components(b[..|b| - 1])
  {
    AppendSlices(a, b, |b| - 1);
    ComponentsDropDelimiter(a + b);
    ComponentsDropDelimiter(b);
  }

  lemma AppendName(a: string, b: string, k: nat)
    requires Seam(a, b) && k < |b| && IsName(b[k..]) && (k == 0 || IsDirDelimiter(b[k - 1]))
    requires Components(a + b[..k]) == Components(a) + Components(b[..k])
    ensures Components(a + b) == Components(a) + Components(b)
  {
    AppendSlices(a, b, k);
    ComponentsLast(a + b, |a| + k);
    ComponentsLast(b, k);
    Associative(Components(a), Components(b[..k]), [b[k..]]);
  }

  lemma AppendSlices<T>(a: seq<T>, b: seq<T>, k: nat)
    requires k <= |b|
    ensures (a + b)[..|a| + k] == a + b[..k] && (a + b)[|a| + k..] == b[k..]
  {}

  lemma {:induction false} ComponentsOfDelimiters(s: string)
    requires AllDelimiters(s)
    ensures Components(s) == []
  {
    if s != "" { ComponentsOfDelimiters(s[..|s| - 1]); }
  }

  lemma ComponentsOfName(s: string)
    requires IsName(s)
    ensures Components(s) == [s]
  {
    assert s[0..] == s && s[..0] == "";
    ComponentsLast(s, 0);
  }

  /** Trailing and leading delimiters do not matter. */
  lemma ComponentsTrim(a: string, d: string)
    requires AllDelimiters(d)
    ensures Components(a + d) == Components(a) && Components(d + a) == Components(a)
  {
    ComponentsAppend(a, d);
    ComponentsAppend(d, a);
    ComponentsOfDelimiters(d);
  }

  lemma {:induction false} ComponentsAreNames(s: string)
    ensures forall i :: 0 <= i < |Components(s)| ==> IsName(Components(s)[i])
    decreases |s|
  {
    if s != "" {
      if IsDirDelimiter(s[|s| - 1]) { ComponentsAreNames(s[..|s| - 1]); }
      else {
        var k := NameStart(s, |s|);
        LastName(s);
        ComponentsAreNames(s[..k]);
      }
    }
  }

  // ----- the forward stack machine -----

  predicate IsRelative(c: string) {
    c == "." || c == ".."
  }

  /** Reads the components from first to last: "." does nothing, ".." pops, anything else is pushed. */
  function Resolve(cs: seq<string>): Option<seq<string>> {
    if cs == [] then Some([]) else
      var rest := Resolve(cs[..|cs| - 1]);
      var c := cs[|cs| - 1];
      if rest.None? || c == "." then rest
      else if c == ".." then (if rest.value == [] then None else Some(rest.value[..|rest.value| - 1]))
      else Some(rest.value + [c])
  }

  lemma {:induction false} ResolvedHasNoRelatives(cs: seq<string>)
    ensures Resolve(cs).Some? ==> forall i ::
        0 <= i < |Resolve(cs).value| ==> !IsRelative(Resolve(cs).value[i]) && Resolve(cs).value[i] in cs
  {
    if cs != [] { ResolvedHasNoRelatives(cs[..|cs| - 1]); }
  }

  lemma {:induction false} ResolveWithoutRelatives(cs: seq<string>)
    requires forall i :: 0 <= i < |cs| ==> !IsRelative(cs[i])
    ensures Resolve(cs) == Some(cs)
  {
    if cs != [] {
      ResolveWithoutRelatives(cs[..|cs| - 1]);
      assert cs == cs[..|cs| - 1] + [cs[|cs| - 1]];
    }
  }

  // ----- the backward scan, on components -----

  /**
   * Reads the components from last to first with `up` parents still to be dropped: what is kept, what is left to drop.
   */
  function Backward(cs: seq<string>, up: nat): (seq<string>, nat) {
    if cs == [] then ([], up) else
      var rest, c := cs[..|cs| - 1], cs[|cs| - 1];
      if c == "." then Backward(rest, up)
      else if c == ".." then Backward(rest, up + 1)
      else if up > 0 then Backward(rest, up - 1)
      else var b := Backward(rest, 0); (b.0 + [c], b.1)
  }

  /** What the backward scan returns when the forward machine's state is known. */
  ghost predicate Agrees(state: Option<seq<string>>, up: nat, back: (seq<string>, nat)) {
    match state
    case None => back.1 > 0
    case Some(st) => if |st| >= up then back == (st[..|st| - up], 0) else back.1 > 0
  }

  /** The two directions agree. */
  lemma {:induction false} BackwardIsResolve(cs: seq<string>, up: nat)
    ensures Agrees(Resolve(cs), up, Backward(cs, up))
  {
    if cs != [] {
      var rest, c := cs[..|cs| - 1], cs[|cs| - 1];
      if c == "." {
        BackwardIsResolve(rest, up);
      } else if c == ".." {
        BackwardIsResolve(rest, up + 1);
        AgreesPop(Resolve(rest), up, Backward(rest, up + 1));
      } else if up > 0 {
        BackwardIsResolve(rest, up - 1);
        AgreesDrop(Resolve(rest), c, up, Backward(rest, up - 1));
      } else {
        BackwardIsResolve(rest, 0);
        AgreesPush(Resolve(rest), c, Backward(rest, 0));
      }
    }
  }

  lemma AgreesPop(state: Option<seq<string>>, up: nat, back: (seq<string>, nat))
    requires Agrees(state, up + 1, back)
    ensures Agrees(if state.None? || state.value == [] then None else Some(state.value[..|state.value| - 1]), up, back)
  {
    if state.Some? && |state.value| > up {
      var st := state.value;
      assert st[..|st| - 1][..|st| - 1 - up] == st[..|st| - (up + 1)];
    }
  }

  lemma AgreesDrop(state: Option<seq<string>>, c: string, up: nat, back: (seq<string>, nat))
    requires up > 0 && Agrees(state, up - 1, back)
    ensures Agrees(if state.None? then None else Some(state.value + [c]), up, back)
  {
    if state.Some? && |state.value| + 1 >= up {
      var st := state.value;
      assert (st + [c])[..|st| + 1 - up] == st[..|st| - (up - 1)];
    }
  }

  lemma AgreesPush(state: Option<seq<string>>, c: string, back: (seq<string>, nat))
    requires Agrees(state, 0, back)
    ensures Agrees(if state.None? then None else Some(state.value + [c]), 0, (back.0 + [c], back.1))
  {
    if state.Some? {
      var st := state.value;
      assert st[..|st|] == st && (st + [c])[..|st| + 1] == st + [c];
    }
  }

  // ----- RemoveRelativePathComponents -----

  method SkipDelimiters(path: string, from: nat) returns (pos: nat)
    requires from <= |path|
    ensures pos <= from && AllDelimiters(path[pos..from]) && (pos == 0 || !IsDirDelimiter(path[pos - 1]))
  {
    pos := from;
    while pos != 0 && IsDirDelimiter(path[pos - 1])
      invariant pos <= from && AllDelimiters(path[pos..from])
    {
      assert path[pos - 1..from] == [path[pos - 1]] + path[pos..from];
      pos := pos - 1;
    }
  }

  method SkipName(path: string, from: nat) returns (pos: nat)
    requires from <= |path|
    ensures pos == NameStart(path, from)
  {
    pos := from;
    while pos != 0 && !IsDirDelimiter(path[pos - 1])
      invariant pos <= from && NameStart(path, from) == NameStart(path, pos)
    {
      pos := pos - 1;
    }
  }

  predicate IsAbsolute(path: string) {
    path != "" && IsDirDelimiter(path[0])
  }

  predicate EndsWithDelimiter(path: string) {
    path != "" && IsDirDelimiter(path[|path| - 1])
  }

  /** No two delimiters follow each other. */
  predicate IsSingle(path: string) {
    forall i :: 0 < i < |path| ==> !(IsDirDelimiter(path[i - 1]) && IsDirDelimiter(path[i]))
  }

  /** Components put together with one delimiter between them. */
  function Assembled(cs: seq<string>): string {
    if cs == [] then "" else if |cs| == 1 then cs[0] else cs[0] + [DIR_DELIM] + Assembled(cs[1..])
  }

  lemma AssembledLast(cs: seq<string>, name: string)
    ensures Assembled(cs + [name]) == if cs == [] then name else Assembled(cs) + [DIR_DELIM] + name
    decreases |cs|
  {
    if |cs| > 1 {
      AssembledLast(cs[1..], name);
      assert (cs + [name])[1..] == cs[1..] + [name];
    } else if |cs| == 1 {
      assert (cs + [name])[1..] == [name];
    }
  }

  /** A path without double or trailing delimiters is its components, joined, and whether it is absolute. */
  lemma {:induction false} SingleIsAssembled(path: string)
    requires IsSingle(path) && (EndsWithDelimiter(path) ==> |path| == 1)
    ensures path == (if IsAbsolute(path) then [DIR_DELIM] else "") + Assembled(Components(path))
    decreases |path|
  {
    if path != "" {
      if EndsWithDelimiter(path) {
        assert path[..0] == "" && Components(path) == Components("");
      } else {
        SingleLast(path);
      }
    }
  }

  lemma {:induction false} SingleLast(path: string)
    requires IsSingle(path) && path != "" && !EndsWithDelimiter(path)
    ensures path == (if IsAbsolute(path) then [DIR_DELIM] else "") + Assembled(Components(path))
    decreases |path|, 0
  {
    LastName(path);
    var k := NameStart(path, |path|);
    ComponentsLast(path, k);
    assert path == path[..k] + path[k..];
    if k <= 1 {
      assert k == 1 ==> path[..k] == [DIR_DELIM] && IsAbsolute(path);
      ComponentsOfDelimiters(path[..k]);
    } else {
      var head := path[..k - 1];
      assert path[..k] == head + [DIR_DELIM] && head[0] == path[0] && head[k - 2] == path[k - 2];
      assert !IsDirDelimiter(path[k - 2]) by { assert IsDirDelimiter(path[k - 1]); }
      SinglePrefix(path, k - 1);
      SingleIsAssembled(head);
      HasComponents(head);
      ComponentsTrim(head, [DIR_DELIM]);
      hide Components, IsSingle, NameStart, Assembled;
      AssembledLast(Components(head), path[k..]);
      Regroup(if IsAbsolute(path) then [DIR_DELIM] else "", Assembled(Components(head)), path[k..]);
    }
  }

  lemma SinglePrefix(path: string, n: nat)
    requires IsSingle(path) && n <= |path|
    ensures IsSingle(path[..n])
  {}

  lemma Regroup(a: string, b: string, name: string)
    ensures (a + b) + [DIR_DELIM] + name == a + (b + [DIR_DELIM] + name)
  {}

  lemma HasComponents(s: string)
    requires s != "" && !EndsWithDelimiter(s)
    ensures Components(s) != []
  {}

  ghost predicate HasNoRelatives(path: string) {
    forall i :: 0 <= i < |Components(path)| ==> !IsRelative(Components(path)[i])
  }

  /** A path the function leaves alone. */
  ghost predicate IsNormal(path: string) {
    HasNoRelatives(path) && !EndsWithDelimiter(path)
  }

  /** The unread part ends at a component boundary, and what has been read starts with a name. */
  ghost predicate Boundary(unread: string, read: string, up: nat) {
    && (unread == "" || read == "" || (EndsWithDelimiter(unread) && !IsDirDelimiter(read[0])))
    && (up > 0 && unread != "" ==> EndsWithDelimiter(unread) && |unread| >= 2 && !IsDirDelimiter(unread[|unread| - 2]))
  }

  /** Dropping `up` parents in the unread part completes the backward scan of the original path. */
  ghost predicate Tracks(path0: string, unread: string, read: string, up: nat) {
    var b := Backward(Components(unread), up);
    Backward(Components(path0), 0) == (b.0 + Components(read), b.1)
  }

  /** What the scan keeps of the original path's form. */
  ghost predicate Shape(path0: string, unread: string, read: string, up: nat) {
    && Boundary(unread, read, up)
    && (unread + read != "" ==> IsAbsolute(unread + read) == IsAbsolute(path0))
    && (IsSingle(path0) ==> IsSingle(unread + read))
    && (HasNoRelatives(path0) ==> unread + read == path0 && up == 0)
  }

  ghost predicate Scanned(path0: string, unread: string, read: string, up: nat) {
    Tracks(path0, unread, read, up) && Shape(path0, unread, read, up)
  }

  /** One step of the scan sees `unread` as the part before a name, the name, and the delimiters after it. */
  ghost predicate IsStep(unread: string, head: string, name: string, gap: string) {
    && unread == head + name + gap && AllDelimiters(gap)
    && (IsName(name) || (name == "" && head == ""))
    && (head == "" || EndsWithDelimiter(head))
  }

  lemma StepComponents(unread: string, read: string, up: nat, head: string, name: string, gap: string)
    requires Boundary(unread, read, up) && unread != "" && IsStep(unread, head, name, gap) && name != ""
    ensures Components(unread) == Components(head) + [name]
    ensures Components(name + gap + read) == [name] + Components(read)
  {
    ComponentsBefore(head, name, gap);
    if gap == "" { assert unread[|unread| - 1] == name[|name| - 1]; }
    ComponentsAfter(name, gap, read);
  }

  lemma ComponentsBefore(head: string, name: string, gap: string)
    requires IsName(name) && AllDelimiters(gap) && (head == "" || EndsWithDelimiter(head))
    ensures Components(head + name + gap) == Components(head) + [name]
  {
    ComponentsTrim(head + name, gap);
    ComponentsAppend(head, name);
    ComponentsOfName(name);
  }

  lemma ComponentsAfter(name: string, gap: string, read: string)
    requires IsName(name) && AllDelimiters(gap) && (gap == "" ==> read == "")
    ensures Components(name + gap + read) == [name] + Components(read)
  {
    Associative(name, gap, read);
    ComponentsAppend(name, gap + read);
    ComponentsOfName(name);
    ComponentsTrim(read, gap);
  }

  lemma BackwardLast(cs: seq<string>, c: string, up: nat)
    ensures Backward(cs + [c], up) ==
              if c == "." then Backward(cs, up)
              else if c == ".." then Backward(cs, up + 1)
              else if up > 0 then Backward(cs, up - 1)
              else (Backward(cs, 0).0 + [c], Backward(cs, 0).1)
  {
    assert (cs + [c])[..|cs|] == cs;
  }

  /** A component that stays moves from the unread part to the read part. */
  lemma KeepStep(path0: string, unread: string, read: string, head: string, name: string, gap: string)
    requires Scanned(path0, unread, read, 0) && unread != "" && IsStep(unread, head, name, gap)
    requires !IsRelative(name)
    ensures Scanned(path0, head, name + gap + read, 0)
  {
    var kept := name + gap + read;
    assert head + kept == unread + read;
    if name == "" {
      assert unread == gap && kept == gap + read;
      ComponentsOfDelimiters(gap);
      ComponentsTrim(read, gap);
    } else {
      StepComponents(unread, read, 0, head, name, gap);
      BackwardLast(Components(head), name, 0);
      Associative(Backward(Components(head), 0).0, [name], Components(read));
    }
  }

  /** What is left of the part before a removed name: its trailing delimiters become a single one. */
  ghost predicate IsCut(head: string, cut: string, rest: string) {
    && head == cut + rest && AllDelimiters(rest) && !EndsWithDelimiter(cut)
  }

  /** How many parents remain to be dropped after removing `name`. */
  ghost predicate Removes(name: string, up: nat, nextUp: nat) {
    if name == "." then nextUp == up else if name == ".." then nextUp == up + 1 else up > 0 && nextUp == up - 1
  }

  /** A component that goes is cut out together with the delimiters around it. */
  lemma RemoveStep(path0: string, unread: string, read: string, up: nat, head: string, name: string, gap: string,
                   cut: string, rest: string, nextUnread: string, nextRead: string, nextUp: nat)
    requires Scanned(path0, unread, read, up) && unread != "" && IsStep(unread, head, name, gap)
        && IsCut(head, cut, rest)
    requires Removes(name, up, nextUp)
    requires nextUnread == if cut == "" then "" else cut + [DIR_DELIM]
    requires nextRead == if head == "" || cut != "" then read else [DIR_DELIM] + read
    ensures Scanned(path0, nextUnread, nextRead, nextUp)
  {
    NameIsNotEmpty(unread, read, up, head, name, gap, nextUp);
    StepComponents(unread, read, up, head, name, gap);
    RemoveTracks(path0, unread, read, up, head, name, cut, rest, nextUnread, nextRead, nextUp);
    RemovalIsRelative(path0, unread, read, up, head, name);
    RemoveBoundary(unread, read, up, cut, nextUnread, nextRead, nextUp);
    RemoveAbsolute(unread, read, head, name, gap, cut, rest, nextUnread, nextRead);
    hide IsSingle, Components, Backward, Tracks;
    if IsSingle(unread + read) { RemoveSingle(unread, read, head, name, gap, cut, rest, nextUnread, nextRead); }
  }

  lemma RemoveTracks(path0: string, unread: string, read: string, up: nat, head: string, name: string,
                     cut: string, rest: string, nextUnread: string, nextRead: string, nextUp: nat)
    requires Tracks(path0, unread, read, up) && Components(unread) == Components(head) + [name]
        && IsCut(head, cut, rest)
    requires Removes(name, up, nextUp)
    requires nextUnread == if cut == "" then "" else cut + [DIR_DELIM]
    requires nextRead == read || nextRead == [DIR_DELIM] + read
    ensures Tracks(path0, nextUnread, nextRead, nextUp)
  {
    BackwardRemoved(Components(head), name, up, nextUp);
    CutComponents(head, cut, rest);
    ComponentsTrim(read, [DIR_DELIM]);
  }

  lemma BackwardRemoved(cs: seq<string>, name: string, up: nat, nextUp: nat)
    requires Removes(name, up, nextUp)
    ensures Backward(cs + [name], up) == Backward(cs, nextUp)
  {
    BackwardLast(cs, name, up);
  }

  lemma NameIsNotEmpty(unread: string, read: string, up: nat, head: string, name: string, gap: string, nextUp: nat)
    requires Boundary(unread, read, up) && unread != "" && IsStep(unread, head, name, gap) && Removes(name, up, nextUp)
    ensures name != ""
  {
    if name == "" { assert false; }
  }

  lemma CutComponents(head: string, cut: string, rest: string)
    requires IsCut(head, cut, rest)
    ensures Components(head) == Components(if cut == "" then "" else cut + [DIR_DELIM])
  {
    ComponentsTrim(cut, rest);
    ComponentsTrim(cut, [DIR_DELIM]);
  }

  lemma RemoveBoundary(unread: string, read: string, up: nat, cut: string, nextUnread: string, nextRead: string,
                       nextUp: nat)
    requires Boundary(unread, read, up) && unread != "" && !EndsWithDelimiter(cut)
    requires nextUnread == (if cut == "" then "" else cut + [DIR_DELIM]) && (cut != "" ==> nextRead == read)
    ensures Boundary(nextUnread, nextRead, nextUp)
  {}

  lemma RemoveAbsolute(unread: string, read: string, head: string, name: string, gap: string, cut: string, rest: string,
                       nextUnread: string, nextRead: string)
    requires IsStep(unread, head, name, gap) && IsCut(head, cut, rest) && IsName(name)
    requires read == "" || !IsDirDelimiter(read[0])
    requires nextUnread == if cut == "" then "" else cut + [DIR_DELIM]
    requires nextRead == if head == "" || cut != "" then read else [DIR_DELIM] + read
    ensures nextUnread + nextRead != "" ==> IsAbsolute(nextUnread + nextRead) == IsAbsolute(unread + read)
  {
    if cut != "" { assert unread[0] == cut[0]; }
    else if head != "" { assert unread[0] == rest[0]; }
    else { assert unread[0] == name[0]; }
  }

  lemma RemoveSingle(unread: string, read: string, head: string, name: string, gap: string, cut: string, rest: string,
                     nextUnread: string, nextRead: string)
    requires IsStep(unread, head, name, gap) && IsCut(head, cut, rest) && IsSingle(unread + read)
    requires read == "" || !IsDirDelimiter(read[0])
    requires nextUnread == if cut == "" then "" else cut + [DIR_DELIM]
    requires nextRead == if head == "" || cut != "" then read else [DIR_DELIM] + read
    ensures IsSingle(nextUnread + nextRead)
  {
    SingleParts(cut, rest + name + gap + read);
    assert unread + read == cut + (rest + name + gap + read);
    SingleParts(unread, read);
    SingleSeam(cut, read);
  }

  lemma SingleParts(a: string, b: string)
    requires IsSingle(a + b)
    ensures IsSingle(a) && IsSingle(b)
  {
    forall i | 0 < i < |a| ensures !(IsDirDelimiter(a[i - 1]) && IsDirDelimiter(a[i])) {
      assert (a + b)[i - 1] == a[i - 1] && (a + b)[i] == a[i];
    }
    forall i | 0 < i < |b| ensures !(IsDirDelimiter(b[i - 1]) && IsDirDelimiter(b[i])) {
      assert (a + b)[|a| + i - 1] == b[i - 1] && (a + b)[|a| + i] == b[i];
    }
  }

  lemma SingleSeam(a: string, b: string)
    requires IsSingle(a) && IsSingle(b) && !EndsWithDelimiter(a) && (b == "" || !IsDirDelimiter(b[0]))
    ensures IsSingle("" + b) && IsSingle(a + [DIR_DELIM] + b) && IsSingle("" + ([DIR_DELIM] + b))
  {}

  /** Something is only ever removed from a path that has a relative component. */
  lemma RemovalIsRelative(path0: string, unread: string, read: string, up: nat, head: string, name: string)
    requires Scanned(path0, unread, read, up) && Components(unread) == Components(head) + [name]
    requires IsRelative(name) || up > 0
    ensures !HasNoRelatives(path0)
  {
    if unread + read == path0 {
      ComponentsAppend(unread, read);
      var i := |Components(head)|;
      assert (Components(unread) + Components(read))[i] == name;
    }
  }

  method RemoveRelativePathComponents(path0: string) returns (path: string)
    ensures match Resolve(Components(path0))
            case None => path == ""
            case Some(st) => Components(path) == st && (path == "" <==> st == [])
    ensures IsNormal(path)
    ensures IsNormal(path0) ==> path == path0
    ensures path != "" ==> IsAbsolute(path) == IsAbsolute(path0)
    ensures IsSingle(path0) ==> IsSingle(path)
  {
    path := path0;
    var pos: nat := |path|;
    var dotdotCount: nat := 0;
    assert path[..pos] == path && path[pos..] == "";
    ScannedStart(path);
    while pos != 0
      invariant pos <= |path| && Scanned(path0, path[..pos], path[pos..], dotdotCount)
      decreases pos
    {
      path, pos, dotdotCount := ScanComponent(path0, path, pos, dotdotCount);
    }
    if dotdotCount > 0 {
      ParentsLeft(path0, path, dotdotCount);
      return "";
    }
    pos := SkipDelimiters(path, |path|);
    Finish(path0, path, pos);
    path := path[..pos];
  }

  /** The body of the scanning loop: one component, kept or cut out. */
  method ScanComponent(ghost path0: string, path1: string, pos1: nat, up: nat) returns (path: string, pos: nat,
                       dotdotCount: nat)
    requires 0 < pos1 <= |path1| && Scanned(path0, path1[..pos1], path1[pos1..], up)
    ensures pos < pos1 && pos <= |path| && Scanned(path0, path[..pos], path[pos..], dotdotCount)
  {
    var componentEnd, componentStart := FindComponent(path1, pos1);
    var component := path1[componentStart..componentEnd];
    var removeThis;
    removeThis, dotdotCount := JudgeComponent(component, up);
    if removeThis {
      path, pos := RemoveComponent(path0, path1, pos1, componentEnd, componentStart, up, dotdotCount);
    } else {
      path, pos := path1, componentStart;
      KeepSlices(path0, path, pos1, componentEnd, componentStart);
    }
  }

  /** The slices around one component of the unread part of a path. */
  ghost predicate IsStepAt(path: string, pos: nat, end: nat, start: nat) {
    start <= end <= pos <= |path| && IsStep(path[..pos], path[..start], path[start..end], path[end..pos])
  }

  method FindComponent(path: string, pos: nat) returns (componentEnd: nat, componentStart: nat)
    requires 0 < pos <= |path|
    ensures IsStepAt(path, pos, componentEnd, componentStart) && componentStart < pos
  {
    componentEnd := SkipDelimiters(path, pos);
    componentStart := SkipName(path, componentEnd);
    NameStartMeaning(path, componentEnd);
    SliceStep(path, pos, componentEnd, componentStart);
  }

  lemma KeepSlices(path0: string, path: string, pos: nat, end: nat, start: nat)
    requires IsStepAt(path, pos, end, start) && pos > 0 && Scanned(path0, path[..pos], path[pos..], 0)
    requires !IsRelative(path[start..end])
    ensures Scanned(path0, path[..start], path[start..], 0)
  {
    KeepStep(path0, path[..pos], path[pos..], path[..start], path[start..end], path[end..pos]);
    assert path[start..] == path[start..end] + path[end..pos] + path[pos..];
  }

  method RemoveComponent(ghost path0: string, path1: string, pos1: nat, ghost end: nat, start: nat, ghost up: nat,
                         ghost nextUp: nat)
      returns (path: string, pos: nat)
    requires IsStepAt(path1, pos1, end, start) && pos1 > 0 && Scanned(path0, path1[..pos1], path1[pos1..], up)
    requires Removes(path1[start..end], up, nextUp) && start < pos1
    ensures pos <= start && pos <= |path| && Scanned(path0, path[..pos], path[pos..], nextUp)
  {
    assert start == 0 || IsDirDelimiter(path1[start - 1]) by {
      assert path1[..start] == "" || EndsWithDelimiter(path1[..start]);
    }
    ghost var cut;
    path, pos, cut := CutComponent(path1, pos1, start);
    RemoveSlices(path0, path1, pos1, end, start, up, cut, path[..pos], path[pos..], nextUp);
  }

  lemma RemoveSlices(path0: string, path: string, pos: nat, end: nat, start: nat, up: nat, cut: nat,
                     nextUnread: string, nextRead: string, nextUp: nat)
    requires IsStepAt(path, pos, end, start) && pos > 0 && Scanned(path0, path[..pos], path[pos..], up)
    requires Removes(path[start..end], up, nextUp) && cut <= start
        && IsCut(path[..start], path[..cut], path[cut..start])
    requires nextUnread == if cut == 0 then "" else path[..cut] + [DIR_DELIM]
    requires nextRead == if start == 0 || cut != 0 then path[pos..] else [DIR_DELIM] + path[pos..]
    ensures Scanned(path0, nextUnread, nextRead, nextUp)
  {
    RemoveStep(path0, path[..pos], path[pos..], up, path[..start], path[start..end], path[end..pos],
               path[..cut], path[cut..start], nextUnread, nextRead, nextUp);
  }

  /** Whether to remove a component, and how many parents remain to be dropped. */
  method JudgeComponent(component: string, up: nat) returns (remove: bool, dotdotCount: nat)
    ensures remove <==> IsRelative(component) || up > 0
    ensures if remove then Removes(component, up, dotdotCount) else dotdotCount == 0
  {
    remove, dotdotCount := false, up;
    if component == "." {
      remove := true;
    } else if component == ".." {
      remove := true;
      dotdotCount := dotdotCount + 1;
    } else if dotdotCount != 0 {
      remove := true;
      dotdotCount := dotdotCount - 1;
    }
  }

  /** Cuts a component out, with the delimiters before it; one delimiter stays unless the component came first. */
  method CutComponent(path: string, delimEnd: nat, start: nat) returns (next: string, pos: nat, ghost cut: nat)
    requires start < delimEnd <= |path| && (start == 0 || IsDirDelimiter(path[start - 1]))
    ensures cut <= start && IsCut(path[..start], path[..cut], path[cut..start])
    ensures pos == (if cut > 0 then cut + 1 else 0) && pos <= |next| && pos <= start
    ensures next[..pos] == if cut == 0 then "" else path[..cut] + [DIR_DELIM]
    ensures next[pos..] == if start == 0 || cut != 0 then path[delimEnd..] else [DIR_DELIM] + path[delimEnd..]
  {
    pos := SkipDelimiters(path, start);
    cut := pos;
    assert path[..start] == path[..cut] + path[cut..start];
    if start == 0 {
      next := path[delimEnd..];
    } else {
      next := path[..pos] + [DIR_DELIM] + path[delimEnd..];
    }
    if pos > 0 { pos := pos + 1; }
  }

  lemma ScannedStart(path: string)
    ensures Scanned(path, path, "", 0)
  {
    assert path + "" == path;
    assert Backward(Components(path), 0).0 + [] == Backward(Components(path), 0).0;
  }

  lemma SliceStep(path: string, pos: nat, end: nat, start: nat)
    requires start <= end <= pos <= |path| && AllDelimiters(path[end..pos]) && IsRun(path[start..end])
    requires (end == 0 || start < end) && (start == 0 || IsDirDelimiter(path[start - 1]))
    ensures IsStepAt(path, pos, end, start)
  {
    assert path[..pos] == path[..start] + path[start..end] + path[end..pos];
  }

  /** Parents still to be dropped at the front of the path: a pop would underflow. */
  lemma ParentsLeft(path0: string, path: string, up: nat)
    requires Tracks(path0, path[..0], path[0..], up) && up > 0
    ensures Resolve(Components(path0)) == None
  {
    assert path[..0] == "";
    BackwardIsResolve(Components(path0), 0);
  }

  lemma Finish(path0: string, path: string, pos: nat)
    requires Scanned(path0, path[..0], path[0..], 0)
    requires pos <= |path| && AllDelimiters(path[pos..]) && (pos == 0 || !IsDirDelimiter(path[pos - 1]))
    ensures Resolve(Components(path0)) == Some(Components(path[..pos]))
        && (path[..pos] == "" <==> Components(path[..pos]) == [])
    ensures IsNormal(path[..pos]) && (IsNormal(path0) ==> path[..pos] == path0)
    ensures path[..pos] != "" ==> IsAbsolute(path[..pos]) == IsAbsolute(path0)
    ensures IsSingle(path0) ==> IsSingle(path[..pos])
  {
    assert path[..0] == "" && path[0..] == path;
    TrimEnd(path, pos);
    FinishResolve(path0, path);
    FinishShape(path0, path, pos);
  }

  lemma FinishShape(path0: string, path: string, pos: nat)
    requires Shape(path0, "", path, 0)
    requires pos <= |path| && AllDelimiters(path[pos..]) && (pos == 0 || !IsDirDelimiter(path[pos - 1]))
    ensures !EndsWithDelimiter(path[..pos]) && (IsNormal(path0) ==> path[..pos] == path0)
    ensures path[..pos] != "" ==> IsAbsolute(path[..pos]) == IsAbsolute(path0)
    ensures IsSingle(path0) ==> IsSingle(path[..pos])
  {
    assert "" + path == path;
    FinishUnchanged(path0, path, pos);
  }

  lemma FinishUnchanged(path0: string, path: string, pos: nat)
    requires pos <= |path| && AllDelimiters(path[pos..]) && (IsNormal(path0) ==> path == path0)
    ensures IsNormal(path0) ==> path[..pos] == path0
  {
    if pos < |path| {
      assert path[|path| - 1] == path[pos..][|path| - pos - 1];
      assert EndsWithDelimiter(path);
    } else {
      assert path[..pos] == path;
    }
  }

  lemma FinishResolve(path0: string, path: string)
    requires Tracks(path0, "", path, 0)
    ensures Resolve(Components(path0)) == Some(Components(path)) && HasNoRelatives(path)
  {
    BackwardIsResolve(Components(path0), 0);
    var st := Resolve(Components(path0)).value;
    assert st[..|st|] == st && [] + Components(path) == Components(path);
    ResolvedHasNoRelatives(Components(path0));
  }

  lemma TrimEnd(path: string, pos: nat)
    requires pos <= |path| && AllDelimiters(path[pos..]) && (pos == 0 || !IsDirDelimiter(path[pos - 1]))
    ensures Components(path[..pos]) == Components(path) && (path[..pos] == "" <==> Components(path) == [])
  {
    assert path == path[..pos] + path[pos..];
    ComponentsTrim(path[..pos], path[pos..]);
  }
}
