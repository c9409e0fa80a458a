/** Prefixes and last components of file paths. */
module PathPrefix {
  import opened Paths

  predicate AtDelimiter(s: string, pos: nat) {
    pos >= |s| || IsDirDelimiter(s[pos])
  }

  /** The end of the run of non-delimiters that starts at `pos`. */
  ghost predicate IsNameEnd(s: string, pos: nat, end: nat) {
    pos < end <= |s| && IsRun(s[pos..end]) && AtDelimiter(s, end)
  }

  lemma FirstComponent(s: string, pos: nat, end: nat)
    requires IsNameEnd(s, pos, end)
    ensures Components(s[pos..]) == [s[pos..end]] + Components(s[end..])
  {
    assert s[pos..] == s[pos..end] + s[end..];
    ComponentsAppend(s[pos..end], s[end..]);
    ComponentsOfName(s[pos..end]);
  }

  lemma {:induction false} NameEnd(s: string, pos: nat, from: nat) returns (end: nat)
    requires pos < from <= |s| && IsRun(s[pos..from])
    ensures IsNameEnd(s, pos, end) && from <= end
    decreases |s| - from
  {
    if AtDelimiter(s, from) { return from; }
    assert s[pos..from + 1] == s[pos..from] + [s[from]];
    end := NameEnd(s, pos, from + 1);
  }

  /** Both rest strings start at a delimiter or neither does, and the components of one begin those of the other. */
  ghost predicate StartsWith(path: string, prefix: string) {
    AtDelimiter(path, 0) == AtDelimiter(prefix, 0) && Components(prefix) <= Components(path)
  }

  lemma ConsPrefix<T>(x: T, a: seq<T>, y: T, b: seq<T>)
    ensures [x] + a <= [y] + b <==> x == y && a <= b
  {
    if x == y && a <= b { assert ([y] + b)[..|[x] + a|] == [y] + b[..|a|]; }
    if [x] + a <= [y] + b {
      assert ([x] + a)[0] == ([y] + b)[0];
      assert a == ([x] + a)[1..] && b == ([y] + b)[1..];
    }
  }

  method SkipDelimitersForward(s: string, from: nat) returns (pos: nat)
    requires from <= |s|
    ensures from <= pos <= |s| && Components(s[pos..]) == Components(s[from..])
        && (pos < |s| ==> !IsDirDelimiter(s[pos]))
  {
    pos := from;
    while pos < |s| && IsDirDelimiter(s[pos])
      invariant from <= pos <= |s| && Components(s[pos..]) == Components(s[from..])
    {
      assert s[pos..] == [s[pos]] + s[pos + 1..];
      ComponentsTrim(s[pos + 1..], [s[pos]]);
      pos := pos + 1;
    }
  }

  /** The inner do-while: how far the two names agree, character by character. */
  method MatchName(path: string, p: nat, prefix: string, q: nat) returns (same: bool, len: nat)
    requires !AtDelimiter(path, p) && !AtDelimiter(prefix, q)
    ensures same ==> 0 < len && p + len <= |path| && q + len <= |prefix|
    ensures same ==> StartsWith(path[p..], prefix[q..]) == StartsWith(path[p + len..], prefix[q + len..])
    ensures !same ==> !StartsWith(path[p..], prefix[q..])
  {
    len := 0;
    while true
      invariant p + len < |path| && q + len < |prefix|
      invariant path[p..p + len] == prefix[q..q + len] && IsRun(path[p..p + len])
      invariant !IsDirDelimiter(path[p + len]) && !IsDirDelimiter(prefix[q + len])
      decreases |path| - len
    {
      if path[p + len] != prefix[q + len] {
        NamesDiffer(path, p, prefix, q, len);
        return false, len;
      }
      assert path[p..p + len + 1] == path[p..p + len] + [path[p + len]];
      assert prefix[q..q + len + 1] == prefix[q..q + len] + [prefix[q + len]];
      len := len + 1;
      if !(p + len < |path| && !IsDirDelimiter(path[p + len]) && q + len < |prefix|
          && !IsDirDelimiter(prefix[q + len])) {
        NamesAgree(path, p, prefix, q, len);
        return true, len;
      }
    }
  }

  lemma NamesDiffer(path: string, p: nat, prefix: string, q: nat, len: nat)
    requires p + len < |path| && q + len < |prefix|
    requires path[p..p + len] == prefix[q..q + len] && IsRun(path[p..p + len])
    requires !IsDirDelimiter(path[p + len]) && !IsDirDelimiter(prefix[q + len]) && path[p + len] != prefix[q + len]
    ensures !StartsWith(path[p..], prefix[q..])
  {
    assert path[p..p + len + 1] == path[p..p + len] + [path[p + len]];
    assert prefix[q..q + len + 1] == prefix[q..q + len] + [prefix[q + len]];
    var e := NameEnd(path, p, p + len + 1);
    var f := NameEnd(prefix, q, q + len + 1);
    FirstComponent(path, p, e);
    FirstComponent(prefix, q, f);
    assert path[p..e][len] != prefix[q..f][len];
    ConsPrefix(prefix[q..f], Components(prefix[f..]), path[p..e], Components(path[e..]));
  }

  lemma NamesAgree(path: string, p: nat, prefix: string, q: nat, len: nat)
    requires 0 < len && p + len <= |path| && q + len <= |prefix|
    requires path[p..p + len] == prefix[q..q + len] && IsRun(path[p..p + len])
    requires AtDelimiter(path, p + len) || AtDelimiter(prefix, q + len)
    requires !AtDelimiter(path, p) && !AtDelimiter(prefix, q)
    ensures StartsWith(path[p..], prefix[q..]) == StartsWith(path[p + len..], prefix[q + len..])
  {
    hide Components;
    var e := NameEnd(path, p, p + len);
    var f := NameEnd(prefix, q, q + len);
    FirstComponent(path, p, e);
    FirstComponent(prefix, q, f);
    ConsPrefix(prefix[q..f], Components(prefix[f..]), path[p..e], Components(path[e..]));
    if e == p + len && f == q + len {
    } else {
      assert path[p..e] != prefix[q..f];
    }
  }

  /** `PathStartsWith`, in a case-sensitive build. */
  method PathStartsWith(path: string, prefix: string) returns (r: bool)
    ensures r <==> AtDelimiter(path, 0) == AtDelimiter(prefix, 0) && Components(prefix) <= Components(path)
  {
    var pathpos: nat, prefixpos: nat := 0, 0;
    assert path[0..] == path && prefix[0..] == prefix;
    while true
      invariant pathpos <= |path| && prefixpos <= |prefix|
      invariant StartsWith(path, prefix) == StartsWith(path[pathpos..], prefix[prefixpos..])
      decreases |path| - pathpos, |prefix| - prefixpos
    {
      var delim1 := pathpos == |path| || IsDirDelimiter(path[pathpos]);
      var delim2 := prefixpos == |prefix| || IsDirDelimiter(prefix[prefixpos]);
      if delim1 != delim2 { return false; }
      if delim1 {
        pathpos := SkipDelimitersForward(path, pathpos);
        prefixpos := SkipDelimitersForward(prefix, prefixpos);
        if prefixpos == |prefix| { return true; }
        if pathpos == |path| {
          ghost var f := NameEnd(prefix, prefixpos, prefixpos + 1);
          FirstComponent(prefix, prefixpos, f);
          return false;
        }
      } else {
        var same, len := MatchName(path, pathpos, prefix, prefixpos);
        if !same { return false; }
        pathpos := pathpos + len;
        prefixpos := prefixpos + len;
      }
    }
  }

  /** How many of `n` components a request to remove `count` removes; a negative count removes none. */
  function Removable(count: int, n: nat): nat {
    if count <= 0 then 0 else if count < n then count else n
  }

  function Delimiters(n: nat): string {
    seq(n, i => DIR_DELIM)
  }

  /**
   * Rounds that find no component any more put a delimiter in front of what was removed, except for the first round.
   */
  function Surplus(count: int, n: nat): nat {
    var rounds := if n == 0 then 1 else n;
    if count > rounds then count - rounds else 0
  }

  /**
   * `RemoveLastPathComponent`: splits the component list `count` from its end. The rest is the path up to the end of
   * its last component that stays; the components removed come back with one delimiter between them.
   */
  method RemoveLastPathComponent(path: string, count: int) returns (rest: string, removed: string)
    ensures Components(rest) + Components(removed) == Components(path)
    ensures |Components(removed)| == Removable(count, |Components(path)|)
    ensures count <= 0 ==> rest == path && removed == ""
    ensures rest <= path && (count > 0 ==> !EndsWithDelimiter(rest))
    ensures var cs := Components(path);
            removed == Delimiters(Surplus(count, |cs|)) + Assembled(cs[|cs| - Removable(count, |cs|)..])
  {
    removed := "";
    var remaining: nat := |path|;
    ghost var cs, gone := Components(path), [];
    SplitStart(path);
    hide IsSplit, Components, Assembled, Delimiters, EndsWithDelimiter;
    for i := 0 to if count < 0 then 0 else count
      invariant remaining <= |path| && (i == 0 ==> remaining == |path| && removed == "")
      invariant i > 0 ==> !EndsWithDelimiter(path[..remaining])
      invariant IsSplit(cs, i, Components(path[..remaining]), gone, removed)
    {
      ghost var before := Components(path[..remaining]);
      var component;
      remaining, component := StripComponent(path, remaining);
      SplitMore(cs, i, before, gone, removed, Components(path[..remaining]), component);
      gone := (if component == "" then [] else [component]) + gone;
      removed := if i > 0 then component + [DIR_DELIM] + removed else component;
    }
    rest := path[..remaining];
    SplitEnd(cs, if count < 0 then 0 else count, Components(rest), gone, removed);
  }

  /** After `i` rounds: the components that stay, those that are gone, and what was removed. */
  ghost predicate IsSplit(cs: seq<string>, i: nat, kept: seq<string>, gone: seq<string>, removed: string) {
    && cs == kept + gone && |gone| == Removable(i, |cs|) && Components(removed) == gone
    && removed == Delimiters(Surplus(i, |cs|)) + Assembled(gone) && (i == 0 ==> removed == "")
  }

  lemma SplitStart(path: string)
    ensures IsSplit(Components(path), 0, Components(path[..|path|]), [], "")
  {
    assert path[..|path|] == path;
  }

  lemma SplitEnd(cs: seq<string>, i: nat, kept: seq<string>, gone: seq<string>, removed: string)
    requires IsSplit(cs, i, kept, gone, removed)
    ensures kept + Components(removed) == cs && |Components(removed)| == Removable(i, |cs|)
    ensures removed == Delimiters(Surplus(i, |cs|)) + Assembled(cs[|cs| - Removable(i, |cs|)..])
  {
    Tail(kept, gone);
  }

  lemma Tail<T>(a: seq<T>, b: seq<T>)
    ensures (a + b)[|a|..] == b
  {}

  lemma SplitMore(cs: seq<string>, i: nat, kept: seq<string>, gone: seq<string>, removed: string, next: seq<string>,
                  component: string)
    requires IsSplit(cs, i, kept, gone, removed)
    requires if kept == [] then component == "" && next == [] else IsName(component) && kept == next + [component]
    ensures IsSplit(cs, i + 1, next, (if component == "" then [] else [component]) + gone,
                    if i > 0 then component + [DIR_DELIM] + removed else component)
  {
    hide Components;
    PrependComponent(component, removed, i > 0);
    if kept == [] {
      assert [] + gone == gone;
      if i > 0 { assert Delimiters(Surplus(i + 1, |cs|)) == [DIR_DELIM] + Delimiters(Surplus(i, |cs|)); }
    } else {
      Associative(next, [component], gone);
      Tail([component], gone);
    }
  }

  lemma PrependComponent(component: string, removed: string, more: bool)
    requires (component == "" || IsName(component)) && (!more ==> removed == "")
    ensures Components(if more then component + [DIR_DELIM] + removed else component)
         == (if component == "" then [] else [component]) + Components(removed)
  {
    if component != "" { ComponentsOfName(component); }
    if more {
      ComponentsAppend(component + [DIR_DELIM], removed);
      ComponentsTrim(component, [DIR_DELIM]);
    }
  }

  /** Strips the delimiters after the last component, the component, and the delimiters before it. */
  method StripComponent(path: string, from: nat) returns (remaining: nat, component: string)
    requires from <= |path|
    ensures remaining <= from && !EndsWithDelimiter(path[..remaining])
    ensures if Components(path[..from]) == [] then component == "" && Components(path[..remaining]) == []
            else IsName(component) && Components(path[..from]) == Components(path[..remaining]) + [component]
  {
    var end := SkipDelimiters(path, from);
    var start := SkipName(path, end);
    NameStartMeaning(path, end);
    remaining := SkipDelimiters(path, start);
    component := path[start..end];
    StripStep(path, from, end, start, remaining);
  }

  lemma StripStep(path: string, from: nat, end: nat, start: nat, remaining: nat)
    requires remaining <= start <= end <= from <= |path|
    requires AllDelimiters(path[end..from]) && IsRun(path[start..end]) && AllDelimiters(path[remaining..start])
    requires (end == 0 || start < end) && (start == 0 || IsDirDelimiter(path[start - 1]))
    ensures if end == 0 then Components(path[..from]) == [] && Components(path[..remaining]) == []
            else Components(path[..from]) == Components(path[..remaining]) + [path[start..end]]
  {
    assert path[..from] == path[..end] + path[end..from];
    ComponentsTrim(path[..end], path[end..from]);
    if end == 0 {
      assert path[..end] == "" && path[..remaining] == "";
    } else {
      assert path[..end] == path[..start] + path[start..end]
          && path[..start] == path[..remaining] + path[remaining..start];
      ComponentsAppend(path[..start], path[start..end]);
      ComponentsOfName(path[start..end]);
      ComponentsTrim(path[..remaining], path[remaining..start]);
    }
  }
}
