/**
 * Unix paths as Rust's `std::path` sees them: `Path::components()` (which
 * drops empty segments and interior `.` segments), and collecting components
 * back into a `PathBuf` with `PathBuf::push`.
 */
module Paths {

  datatype Component = RootDir | CurDir | ParentDir | Normal(name: string)

  /** The text between separators, in order; `Split("")` is `[""]`. */
  function Split(p: string): (segs: seq<string>)
    ensures |segs| >= 1
    ensures forall i :: 0 <= i < |segs| ==> '/' !in segs[i]
  {
    if |p| == 0 then [""]
    else
      var rest := Split(p[1..]);
      if p[0] == '/' then [""] + rest
      else [[p[0]] + rest[0]] + rest[1..]
  }

  /** The parts, separated by single `/`. */
  function Join(parts: seq<string>): string {
    if |parts| == 0 then ""
    else if |parts| == 1 then parts[0]
    else parts[0] + "/" + Join(parts[1..])
  }

  /** A segment that `components()` reports unchanged as a `Normal` component. */
  predicate Plain(seg: string) {
    seg != "" && seg != "." && seg != ".." && '/' !in seg
  }

  /** A component that may follow the first one: `..` or a plain name. */
  predicate Inner(c: Component) {
    c == ParentDir || (c.Normal? && Plain(c.name))
  }

  /** Segment-by-segment normalisation: empty and `.` segments vanish. */
  function Normalize(segs: seq<string>): (cs: seq<Component>)
    requires forall i :: 0 <= i < |segs| ==> '/' !in segs[i]
    ensures forall i :: 0 <= i < |cs| ==> Inner(cs[i])
  {
    if |segs| == 0 then []
    else
      var s := segs[0];
      var head := if s == "" || s == "." then [] else if s == ".." then [ParentDir] else [Normal(s)];
      head + Normalize(segs[1..])
  }

  /**
   * `Path::components()` on Unix: a leading `/` is `RootDir`, a leading `.`
   * segment of a relative path is `CurDir`, and the other segments are
   * normalised.
   */
  function Components(p: string): (cs: seq<Component>)
    ensures forall i :: 1 <= i < |cs| ==> Inner(cs[i])
  {
    var segs := Split(p);
    if |p| > 0 && p[0] == '/' then [RootDir] + Normalize(segs[1..])
    else if segs[0] == "." then [CurDir] + Normalize(segs[1..])
    else Normalize(segs)
  }

  function AsStr(c: Component): string {
    match c
    case RootDir => "/"
    case CurDir => "."
    case ParentDir => ".."
    case Normal(name) => name
  }

  /** The texts of the components, in order. */
  function Texts(cs: seq<Component>): (ts: seq<string>)
    ensures |ts| == |cs|
    ensures forall i :: 0 <= i < |cs| ==> ts[i] == AsStr(cs[i])
  {
    seq(|cs|, i requires 0 <= i < |cs| => AsStr(cs[i]))
  }

  /** `PathBuf::push`: an absolute path replaces the buffer, otherwise a separator is added when needed. */
  function Push(buf: string, s: string): (r: string)
    ensures |s| <= |r| && r[|r| - |s|..] == s
    ensures |s| > 0 && s[0] == '/' ==> r == s
    ensures !(|s| > 0 && s[0] == '/') ==> |buf| <= |r| && r[..|buf|] == buf
  {
    if |s| > 0 && s[0] == '/' then s
    else if |buf| == 0 || buf[|buf| - 1] == '/' then buf + s
    else buf + "/" + s
  }

  /** `collect::<PathBuf>()`: push every component, in order, onto an empty buffer. */
  function Collect(cs: seq<Component>): (r: string)
    ensures |cs| == 0 ==> r == ""
    ensures |cs| > 0 ==> |AsStr(cs[|cs| - 1])| <= |r| && r[|r| - |AsStr(cs[|cs| - 1])|..] == AsStr(cs[|cs| - 1])
  {
    if |cs| == 0 then "" else Push(Collect(cs[..|cs| - 1]), AsStr(cs[|cs| - 1]))
  }

  /** `p.components().skip(k).collect::<PathBuf>()`. */
  function SkipComponents(p: string, k: nat): (r: string)
    ensures |Components(p)| <= k ==> r == ""
    ensures |Components(p)| > k ==> var t := AsStr(Components(p)[|Components(p)| - 1]);
      |t| <= |r| && r[|r| - |t|..] == t
  {
    var cs := Components(p);
    Collect(if |cs| <= k then [] else cs[k..])
  }

  lemma {:induction false} JoinSnoc(parts: seq<string>, s: string)
    requires |parts| >= 1
    ensures Join(parts + [s]) == Join(parts) + "/" + s
  {
    if |parts| > 1 {
      assert (parts + [s])[1..] == parts[1..] + [s];
      JoinSnoc(parts[1..], s);
    }
  }

  lemma {:induction false} SplitSlash(p: string)
    ensures Split("/" + p) == [""] + Split(p)
  {
    assert ("/" + p)[1..] == p;
  }

  lemma {:induction false} SplitPrefix(a: string, rest: string)
    requires '/' !in a
    ensures Split(a + rest)[0] == a + Split(rest)[0]
    ensures Split(a + rest)[1..] == Split(rest)[1..]
  {
    if |a| > 0 {
      assert (a + rest)[1..] == a[1..] + rest;
      assert a[1..] + rest == a[1..] + rest;
      SplitPrefix(a[1..], rest);
      assert [a[0]] + a[1..] == a;
    } else {
      assert a + rest == rest;
    }
  }

  /** Splitting the join of slash-free parts gives back the parts. */
  lemma {:induction false} SplitJoin(parts: seq<string>)
    requires |parts| >= 1
    requires forall i :: 0 <= i < |parts| ==> '/' !in parts[i]
    ensures Split(Join(parts)) == parts
  {
    if |parts| == 1 {
      SplitPrefix(parts[0], "");
      assert parts[0] + "" == parts[0];
    } else {
      var tail := "/" + Join(parts[1..]);
      SplitJoin(parts[1..]);
      SplitSlash(Join(parts[1..]));
      SplitPrefix(parts[0], tail);
      assert Join(parts) == parts[0] + tail;
      var whole := Split(Join(parts));
      assert whole[0] == parts[0];
      assert whole[1..] == parts[1..];
      assert whole == [whole[0]] + whole[1..];
    }
  }

  /** Joining the segments of a path gives back the path. */
  lemma {:induction false} JoinSplit(p: string)
    ensures Join(Split(p)) == p
  {
    if |p| > 0 {
      var rest := Split(p[1..]);
      JoinSplit(p[1..]);
      if p[0] == '/' {
        assert Split(p) == [""] + rest;
        if |rest| == 1 {
          assert Join([""] + rest) == "" + "/" + rest[0];
        } else {
          assert ([""] + rest)[1..] == rest;
        }
      } else {
        assert Split(p) == [[p[0]] + rest[0]] + rest[1..];
        if |rest| == 1 {
          assert Join(rest) == rest[0];
        } else {
          assert Join(rest) == rest[0] + "/" + Join(rest[1..]);
          assert ([[p[0]] + rest[0]] + rest[1..])[1..] == rest[1..];
        }
        assert [p[0]] + p[1..] == p;
      }
    }
  }

  /** Normalising plain segments keeps one component per segment. */
  lemma {:induction false} NormalizePlain(segs: seq<string>)
    requires forall i :: 0 <= i < |segs| ==> '/' !in segs[i] && Plain(segs[i])
    ensures Texts(Normalize(segs)) == segs
  {
    if |segs| > 0 {
      NormalizePlain(segs[1..]);
    }
  }

  /** Normalising the texts of inner components gives them back. */
  lemma {:induction false} NormalizeTexts(cs: seq<Component>)
    requires forall i :: 0 <= i < |cs| ==> Inner(cs[i])
    ensures forall i :: 0 <= i < |cs| ==> '/' !in Texts(cs)[i]
    ensures Normalize(Texts(cs)) == cs
  {
    if |cs| > 0 {
      NormalizeTexts(cs[1..]);
      assert Texts(cs)[1..] == Texts(cs[1..]);
    }
  }

  lemma TextsSnoc(cs: seq<Component>)
    requires |cs| > 0
    ensures Texts(cs) == Texts(cs[..|cs| - 1]) + [AsStr(cs[|cs| - 1])]
  {
    var init := cs[..|cs| - 1];
    assert forall i :: 0 <= i < |init| ==> Texts(cs)[i] == Texts(init)[i];
  }

  /** Pushing a plain name or `..` onto a joined path appends it after one `/`. */
  lemma PushJoin(parts: seq<string>, t: string)
    requires t != "" && t[0] != '/'
    requires |parts| == 0 || (parts[|parts| - 1] != "" && '/' !in parts[|parts| - 1])
    ensures Push(Join(parts), t) == Join(parts + [t])
  {
    if |parts| > 0 {
      JoinEndsWith(parts);
      JoinSnoc(parts, t);
    } else {
      assert parts + [t] == [t];
    }
  }

  /** The text of an inner component is a non-empty relative name without `/`. */
  lemma InnerText(c: Component)
    requires Inner(c)
    ensures AsStr(c) != "" && AsStr(c)[0] != '/' && '/' !in AsStr(c)
  {
  }

  /** One step of `Collect` on inner components: push the last text onto the joined rest. */
  lemma PushInner(init: seq<Component>, c: Component)
    requires forall i :: 0 <= i < |init| ==> Inner(init[i])
    requires Inner(c)
    ensures Push(Join(Texts(init)), AsStr(c)) == Join(Texts(init + [c]))
  {
    InnerText(c);
    if |init| > 0 {
      InnerText(init[|init| - 1]);
    }
    PushJoin(Texts(init), AsStr(c));
    TextsSnoc(init + [c]);
    assert (init + [c])[..|init|] == init;
  }

  /** Collecting inner components gives their texts joined by `/`. */
  lemma {:induction false} CollectInner(cs: seq<Component>)
    requires forall i :: 0 <= i < |cs| ==> Inner(cs[i])
    ensures Collect(cs) == Join(Texts(cs))
  {
    if |cs| > 0 {
      var init := cs[..|cs| - 1];
      var c := cs[|cs| - 1];
      CollectInner(init);
      assert Collect(cs) == Push(Collect(init), AsStr(c));
      PushInner(init, c);
      assert init + [c] == cs;
    }
  }

  lemma {:induction false} JoinEndsWith(parts: seq<string>)
    requires |parts| >= 1 && parts[|parts| - 1] != "" && '/' !in parts[|parts| - 1]
    ensures |Join(parts)| > 0 && Join(parts)[|Join(parts)| - 1] != '/'
  {
    if |parts| > 1 {
      JoinEndsWith(parts[1..]);
    }
  }

  /** A relative path built from inner components splits back into them. */
  lemma ComponentsOfInner(cs: seq<Component>)
    requires forall i :: 0 <= i < |cs| ==> Inner(cs[i])
    ensures Components(Join(Texts(cs))) == cs
  {
    if |cs| > 0 {
      var texts := Texts(cs);
      NormalizeTexts(cs);
      SplitJoin(texts);
      assert Join(texts)[0] == texts[0][0];
    }
  }

  /**
   * `skip(k)` with `k >= 1` removes exactly the first `k` components: the
   * collected path has as its components the rest of the original's.
   */
  lemma SkipComponentsDrops(p: string, k: nat)
    requires k >= 1
    ensures Components(SkipComponents(p, k)) ==
            (if |Components(p)| <= k then [] else Components(p)[k..])
  {
    var cs := Components(p);
    var rest := if |cs| <= k then [] else cs[k..];
    assert forall i :: 0 <= i < |rest| ==> Inner(rest[i]);
    CollectInner(rest);
    ComponentsOfInner(rest);
  }

  lemma ComponentsOfAbsolute(segs: seq<string>)
    requires |segs| >= 1
    requires forall i :: 0 <= i < |segs| ==> '/' !in segs[i]
    ensures Components("/" + Join(segs)) == [RootDir] + Normalize(segs)
  {
    SplitSlash(Join(segs));
    SplitJoin(segs);
  }

  /**
   * An absolute path of plain segments loses its root and its first segment:
   * `/projects/<repo>/a/b.txt` becomes `<repo>/a/b.txt`.
   */
  lemma {:induction false} SkipRootAndFirst(segs: seq<string>)
    requires |segs| >= 1
    requires forall i :: 0 <= i < |segs| ==> '/' !in segs[i] && Plain(segs[i])
    ensures SkipComponents("/" + Join(segs), 2) == Join(segs[1..])
  {
    var tail := segs[1..];
    ComponentsOfAbsolute(segs);
    assert Normalize(segs) == [Normal(segs[0])] + Normalize(tail);
    var cs := Components("/" + Join(segs));
    assert (if |cs| <= 2 then [] else cs[2..]) == Normalize(tail);
    NormalizePlain(tail);
    CollectInner(Normalize(tail));
  }
}
