/** The object-key builder of the storage helper: `buildKey(...parts)` strips the slash runs at both
    ends of every part, drops the parts that become empty and joins the rest with "/". */
module Storage {

  predicate AllSlashes(p: string) {
    forall i :: 0 <= i < |p| ==> p[i] == '/'
  }

  /** Neither end of `p` is a slash (the empty string qualifies). */
  predicate Unslashed(p: string) {
    p == [] || (p[0] != '/' && p[|p| - 1] != '/')
  }

  /** The length of the leading slash run, which the `^\/+` half of the pattern removes. */
  function LeadingSlashes(p: string): (n: nat)
    ensures n <= |p|
    ensures forall i :: 0 <= i < n ==> p[i] == '/'
    ensures n < |p| ==> p[n] != '/'
  {
    if p != [] && p[0] == '/' then
      var m := LeadingSlashes(p[1..]);
      assert forall i :: 1 <= i < m + 1 ==> p[i] == p[1..][i - 1];
      1 + m
    else 0
  }

  /** The length of the trailing slash run, which the `\/+$` half of the pattern removes. */
  function TrailingSlashes(p: string): (n: nat)
    ensures n <= |p|
    ensures forall i :: |p| - n <= i < |p| ==> p[i] == '/'
    ensures n < |p| ==> p[|p| - n - 1] != '/'
  {
    if p != [] && p[|p| - 1] == '/' then
      var m := TrailingSlashes(p[..|p| - 1]);
      assert forall i :: |p| - 1 - m <= i < |p| - 1 ==> p[i] == p[..|p| - 1][i];
      1 + m
    else 0
  }

  /** `p.replace(/^\/+|\/+$/g, "")`: the middle of `p` after its leading and its trailing slash runs;
      slashes inside the part are kept. When the leading run takes the whole part, nothing is left
      for the trailing alternative to match. */
  function StripSlashes(p: string): (r: string)
    ensures Unslashed(r)
  {
    var lead := LeadingSlashes(p);
    if lead == |p| then []
    else
      var trail := TrailingSlashes(p);
      assert lead < |p| - trail;
      p[lead..|p| - trail]
  }

  /** What `StripSlashes` cuts off is slashes only: the result is the slice of the part that starts
      after the leading slash run, and everything after that slice is a slash. */
  lemma StripSlashesMiddle(p: string)
    ensures var r := StripSlashes(p); var lead := LeadingSlashes(p);
            && lead + |r| <= |p| && p[lead..lead + |r|] == r
            && (forall i :: 0 <= i < lead ==> p[i] == '/')
            && (forall i :: lead + |r| <= i < |p| ==> p[i] == '/')
  {
  }

  /** A part made only of slashes (or empty) strips to nothing, and only such a part does. */
  lemma StripSlashesEmptyIff(p: string)
    ensures StripSlashes(p) == [] <==> AllSlashes(p)
  {
    StripSlashesMiddle(p);
  }

  /** A part with no slash at either end is left as it is, interior slashes included. */
  lemma {:induction false} StripSlashesKeepsUnslashed(p: string)
    requires Unslashed(p)
    ensures StripSlashes(p) == p
  {
    if p != [] {
      assert LeadingSlashes(p) == 0;
      assert TrailingSlashes(p) == 0;
    }
  }

  /** `.map((p) => p.replace(...))` */
  function StripAll(parts: seq<string>): (r: seq<string>)
    ensures |r| == |parts|
    ensures forall i :: 0 <= i < |parts| ==> r[i] == StripSlashes(parts[i])
  {
    if parts == [] then [] else [StripSlashes(parts[0])] + StripAll(parts[1..])
  }

  /** `.filter(Boolean)`: drops the empty strings and keeps the others in order. */
  function NonEmpty(xs: seq<string>): (r: seq<string>)
    ensures forall q :: q in r <==> q in xs && q != []
  {
    if xs == [] then []
    else if xs[0] == [] then NonEmpty(xs[1..])
    else [xs[0]] + NonEmpty(xs[1..])
  }

  /** `.join(sep)`: the elements with `sep` between each neighbouring pair. */
  function Join(xs: seq<string>, sep: string): string {
    if xs == [] then []
    else if |xs| == 1 then xs[0]
    else xs[0] + sep + Join(xs[1..], sep)
  }

  /** `buildKey(...parts)`. Its result never starts or ends with a slash. */
  function BuildKey(parts: seq<string>): (r: string)
    ensures Unslashed(r)
  {
    var kept := NonEmpty(StripAll(parts));
    JoinUnslashed(kept);
    Join(kept, "/")
  }

  /** Joining parts that are non-empty and unslashed at both ends gives an unslashed string, which
      is empty only when there were no parts. */
  lemma {:induction false} JoinUnslashed(xs: seq<string>)
    requires forall q :: q in xs ==> q != [] && Unslashed(q)
    ensures Unslashed(Join(xs, "/"))
    ensures Join(xs, "/") == [] <==> xs == []
  {
    if xs != [] {
      assert xs[0] in xs;
    }
    if |xs| > 1 {
      assert forall q :: q in xs[1..] ==> q in xs;
      JoinUnslashed(xs[1..]);
      var t := Join(xs[1..], "/");
      var j := Join(xs, "/");
      assert j == (xs[0] + "/") + t;
      assert j[0] == xs[0][0];
      assert j[|j| - 1] == t[|t| - 1];
    }
  }

  // ---------------------------------------------------------------------------
  // What the key looks like

  /** The keys of `a` and of `b` put side by side, with one "/" between them when both are there. */
  function Beside(x: string, y: string): string {
    if x == [] then y else if y == [] then x else x + "/" + y
  }

  lemma {:induction false} StripAllAppend(a: seq<string>, b: seq<string>)
    ensures StripAll(a + b) == StripAll(a) + StripAll(b)
  {
    if a != [] {
      assert (a + b)[0] == a[0];
      assert (a + b)[1..] == a[1..] + b;
      StripAllAppend(a[1..], b);
    } else {
      assert a + b == b;
    }
  }

  lemma {:induction false} NonEmptyAppend(a: seq<string>, b: seq<string>)
    ensures NonEmpty(a + b) == NonEmpty(a) + NonEmpty(b)
  {
    if a != [] {
      assert (a + b)[0] == a[0];
      assert (a + b)[1..] == a[1..] + b;
      NonEmptyAppend(a[1..], b);
      if a[0] != [] {
        assert [a[0]] + (NonEmpty(a[1..]) + NonEmpty(b)) == ([a[0]] + NonEmpty(a[1..])) + NonEmpty(b);
      }
    } else {
      assert a + b == b;
    }
  }

  /** Joining at least one non-empty part gives a non-empty string. */
  lemma JoinNonEmpty(xs: seq<string>)
    requires xs != [] && xs[0] != []
    ensures Join(xs, "/") != []
  {
  }

  lemma {:induction false} JoinAppend(xs: seq<string>, ys: seq<string>)
    requires forall q :: q in xs ==> q != []
    requires forall q :: q in ys ==> q != []
    ensures Join(xs + ys, "/") == Beside(Join(xs, "/"), Join(ys, "/"))
  {
    if xs == [] {
      assert xs + ys == ys;
    } else if ys == [] {
      assert xs + ys == xs;
      assert xs[0] in xs;
      JoinNonEmpty(xs);
    } else {
      assert xs[0] in xs;
      assert ys[0] in ys;
      JoinNonEmpty(xs);
      JoinNonEmpty(ys);
      if |xs| == 1 {
        assert (xs + ys)[1..] == ys;
      } else {
        assert (xs + ys)[1..] == xs[1..] + ys;
        assert forall q :: q in xs[1..] ==> q in xs;
        JoinAppend(xs[1..], ys);
        assert xs[1..][0] in xs;
        JoinNonEmpty(xs[1..]);
        var a, b := Join(xs[1..], "/"), Join(ys, "/");
        assert Join(xs + ys, "/") == xs[0] + "/" + (a + "/" + b);
        assert Join(xs, "/") == xs[0] + "/" + a;
      }
    }
  }

  /** Keys compose: the key of `a + b` is the key of `a` and the key of `b` with exactly one "/"
      between them, and a side whose parts were all blank adds nothing. With `BuildKeySingle`
      this says the non-empty stripped parts appear in their original order, one "/" apart. */
  lemma {:induction false} BuildKeyAppend(a: seq<string>, b: seq<string>)
    ensures BuildKey(a + b) == Beside(BuildKey(a), BuildKey(b))
  {
    StripAllAppend(a, b);
    NonEmptyAppend(StripAll(a), StripAll(b));
    JoinAppend(NonEmpty(StripAll(a)), NonEmpty(StripAll(b)));
  }

  /** The key of a single part is that part with its end slash runs removed. */
  lemma BuildKeySingle(p: string)
    ensures BuildKey([p]) == StripSlashes(p)
  {
    var q := StripSlashes(p);
    assert StripAll([p]) == [q];
    assert [q][1..] == [];
    assert NonEmpty([q]) == if q == [] then [] else [q];
  }

  /** A part that is empty or made only of slashes contributes nothing to the key. */
  lemma BuildKeySkipsSlashOnlyPart(pre: seq<string>, p: string, post: seq<string>)
    requires AllSlashes(p)
    ensures BuildKey(pre + [p] + post) == BuildKey(pre + post)
  {
    StripSlashesEmptyIff(p);
    BuildKeySingle(p);
    BuildKeyAppend(pre + [p], post);
    BuildKeyAppend(pre, [p]);
    BuildKeyAppend(pre, post);
  }

  /** `buildKey()` and `buildKey("", "//")` both give the empty key. */
  lemma BuildKeyOfNothing()
    ensures BuildKey([]) == ""
    ensures BuildKey(["", "//"]) == ""
  {
    assert NonEmpty(StripAll([])) == [];
    BuildKeySkipsSlashOnlyPart([], "", ["//"]);
    assert [] + [""] + ["//"] == ["", "//"];
    BuildKeySkipsSlashOnlyPart([], "//", []);
    assert [] + ["//"] + [] == ["//"];
  }

  /** Two non-empty unslashed parts are joined by one slash. */
  lemma BuildKeyPair(a: string, b: string)
    requires a != [] && b != [] && Unslashed(a) && Unslashed(b)
    ensures BuildKey([a, b]) == a + "/" + b
  {
    StripSlashesKeepsUnslashed(a);
    StripSlashesKeepsUnslashed(b);
    BuildKeySingle(a);
    BuildKeySingle(b);
    BuildKeyAppend([a], [b]);
    assert [a] + [b] == [a, b];
  }

  /** Three non-empty unslashed parts are joined by single slashes, in their order. */
  lemma BuildKeyTriple(a: string, b: string, c: string)
    requires a != [] && b != [] && c != []
    requires Unslashed(a) && Unslashed(b) && Unslashed(c)
    ensures BuildKey([a, b, c]) == a + "/" + b + "/" + c
  {
    BuildKeyPair(a, b);
    StripSlashesKeepsUnslashed(c);
    BuildKeySingle(c);
    BuildKeyAppend([a, b], [c]);
    assert [a, b] + [c] == [a, b, c];
  }

  /** The documented example: `buildKey("contacts", "abc123", "invoice.pdf")` is
      "contacts/abc123/invoice.pdf". */
  lemma BuildKeyExample()
    ensures BuildKey(["contacts", "abc123", "invoice.pdf"]) == "contacts/abc123/invoice.pdf"
  {
    BuildKeyTriple("contacts", "abc123", "invoice.pdf");
  }

  /** Only the end runs go: "/a/b/" keeps its inner slash. */
  lemma StripSlashesInterior()
    ensures StripSlashes("/a/b/") == "a/b"
  {
    var p := "/a/b/";
    assert p[0] == '/' && p[1] == 'a';
    assert LeadingSlashes(p) == 1;
    assert p[4] == '/' && p[3] == 'b';
    assert TrailingSlashes(p) == 1;
  }

  /** Building a key from a key gives the same key back. */
  lemma BuildKeyStable(parts: seq<string>)
    ensures BuildKey([BuildKey(parts)]) == BuildKey(parts)
  {
    BuildKeySingle(BuildKey(parts));
    StripSlashesKeepsUnslashed(BuildKey(parts));
  }
}
