/** `build_cache_key`'s pre-image: five fields joined by U+001F. */
module CacheKey {
  const SEPARATOR: char := '\U{1f}'

  datatype KeyFields =
    KeyFields(question: string, area: string, sourceHash: string, policy: string, embedder: string)

  function Join(parts: seq<string>): string
    requires parts != []
  {
    if |parts| == 1 then parts[0] else Join(parts[..|parts| - 1]) + [SEPARATOR] + parts[|parts| - 1]
  }

  function Parts(f: KeyFields): seq<string> {
    [f.question, f.area, f.sourceHash, f.policy, f.embedder]
  }

  /** SHA-256 is taken as injective, so a key is its pre-image. */
  function Key(f: KeyFields): string {
    Join(Parts(f))
  }

  /** No separator in the four fields the service itself writes; the question is the user's and may hold any character. */
  predicate Separable(f: KeyFields) {
    SEPARATOR !in f.area && SEPARATOR !in f.sourceHash && SEPARATOR !in f.policy && SEPARATOR !in f.embedder
  }

  /** The last separator is where the last part starts. */
  lemma LastPartIsRead(a: string, b: string, c: string, d: string)
    requires SEPARATOR !in b && SEPARATOR !in d
    requires a + [SEPARATOR] + b == c + [SEPARATOR] + d
    ensures a == c && b == d
  {
    var s := a + [SEPARATOR] + b;
    assert s[|a|] == SEPARATOR && s[|c|] == SEPARATOR;
    assert forall i | |a| < i < |s| :: s[i] in b;
    assert forall i | |c| < i < |s| :: s[i] in d;
    assert |a| == |c|;
    assert s[..|a|] == a && s[..|c|] == c;
    assert s[|a| + 1..] == b && s[|c| + 1..] == d;
  }

  /** Joined lists of the same length whose parts after the first hold no separator are equal only part by part. */
  lemma {:induction false} JoinIsInjective(p: seq<string>, q: seq<string>)
    requires |p| == |q| > 0 && Join(p) == Join(q)
    requires forall i | 0 < i < |p| :: SEPARATOR !in p[i] && SEPARATOR !in q[i]
    ensures p == q
    decreases |p|
  {
    var n := |p| - 1;
    if n > 0 {
      LastPartIsRead(Join(p[..n]), p[n], Join(q[..n]), q[n]);
      JoinIsInjective(p[..n], q[..n]);
      assert p == p[..n] + [p[n]] && q == q[..n] + [q[n]];
    }
  }

  /** Two separable lists of fields share a key if and only if they are the same fields. */
  lemma KeysAreDistinct(f: KeyFields, g: KeyFields)
    requires Separable(f) && Separable(g)
    ensures Key(f) == Key(g) <==> f == g
  {
    if Key(f) == Key(g) {
      JoinIsInjective(Parts(f), Parts(g));
      assert Parts(f)[0] == Parts(g)[0] && Parts(f)[1] == Parts(g)[1] && Parts(f)[2] == Parts(g)[2];
      assert Parts(f)[3] == Parts(g)[3] && Parts(f)[4] == Parts(g)[4];
    }
  }

  lemma JoinOfFive(a: string, b: string, c: string, d: string, e: string)
    ensures Join([a, b, c, d, e])
         == a + [SEPARATOR] + b + [SEPARATOR] + c + [SEPARATOR] + d + [SEPARATOR] + e
  {
    assert [a, b, c, d, e][..4] == [a, b, c, d];
    assert [a, b, c, d][..3] == [a, b, c];
    assert [a, b, c][..2] == [a, b];
    assert [a, b][..1] == [a];
    assert Join([a, b]) == Join([a]) + [SEPARATOR] + b;
    assert Join([a, b, c]) == Join([a, b]) + [SEPARATOR] + c;
    assert Join([a, b, c, d]) == Join([a, b, c]) + [SEPARATOR] + d;
  }

  /** The key's text: the five fields in this order, a unit separator between them. */
  lemma KeyIsTheFields(f: KeyFields)
    ensures Key(f) == f.question + "\U{1f}" + f.area + "\U{1f}" + f.sourceHash + "\U{1f}" + f.policy + "\U{1f}" + f.embedder
  {
    JoinOfFive(f.question, f.area, f.sourceHash, f.policy, f.embedder);
    assert [SEPARATOR] == "\U{1f}";
  }

  /** Without that, different fields can share a key: a separator in the area reads as one in the question. */
  lemma AreaSeparatorCollides()
    ensures var f := KeyFields("q", "a" + [SEPARATOR] + "b", "", "", "");
      var g := KeyFields("q" + [SEPARATOR] + "a", "b", "", "", "");
      f != g && Key(f) == Key(g)
  {
    var sep := [SEPARATOR];
    JoinOfFive("q", "a" + sep + "b", "", "", "");
    JoinOfFive("q" + sep + "a", "b", "", "", "");
    assert "q" + sep + ("a" + sep + "b") == "q" + sep + "a" + sep + "b";
    assert ("q" + sep + "a")[1] == SEPARATOR;
  }

  // Exactly when two lists of fields share a key

  function Seps(s: string): nat {
    if s == "" then 0 else Seps(s[..|s| - 1]) + if s[|s| - 1] == SEPARATOR then 1 else 0
  }

  lemma {:induction false} SepsOfJoin(a: string, b: string)
    ensures Seps(a + [SEPARATOR] + b) == Seps(a) + 1 + Seps(b)
  {
    var s := a + [SEPARATOR] + b;
    if b == "" {
      assert s[..|s| - 1] == a;
    } else {
      var n := |b| - 1;
      SepsOfJoin(a, b[..n]);
      assert s[..|s| - 1] == a + [SEPARATOR] + b[..n];
    }
  }

  /** A text with a separator, cut at its last one. */
  lemma {:induction false} CutLast(s: string) returns (front: string, last: string)
    requires Seps(s) > 0
    ensures s == front + [SEPARATOR] + last && SEPARATOR !in last && Seps(front) == Seps(s) - 1
    decreases |s|
  {
    var n := |s| - 1;
    if s[n] == SEPARATOR {
      front, last := s[..n], "";
    } else {
      var rest;
      front, rest := CutLast(s[..n]);
      last := rest + [s[n]];
      assert s == s[..n] + [s[n]];
    }
  }

  lemma KeyHasFour(f: KeyFields)
    ensures Seps(Key(f)) >= 4
  {
    JoinOfFive(f.question, f.area, f.sourceHash, f.policy, f.embedder);
    var sep := [SEPARATOR];
    SepsOfJoin(f.question, f.area);
    SepsOfJoin(f.question + sep + f.area, f.sourceHash);
    SepsOfJoin(f.question + sep + f.area + sep + f.sourceHash, f.policy);
    SepsOfJoin(f.question + sep + f.area + sep + f.sourceHash + sep + f.policy, f.embedder);
  }

  /** Any text with four separators is the key of fields that have none after the question. */
  lemma Recut(s: string) returns (g: KeyFields)
    requires Seps(s) >= 4
    ensures Separable(g) && Key(g) == s
  {
    var s4, e := CutLast(s);
    var s3, d := CutLast(s4);
    var s2, c := CutLast(s3);
    var s1, b := CutLast(s2);
    g := KeyFields(s1, b, c, d, e);
    JoinOfFive(s1, b, c, d, e);
  }

  predicate Shares(f: KeyFields, g: KeyFields) {
    Separable(g) && g != f && Key(g) == Key(f)
  }

  /** A list of fields shares its key with a separable one if and only if it is not separable itself. */
  lemma SharesExactlyWhenInseparable(f: KeyFields)
    ensures !Separable(f) <==> exists g :: Shares(f, g)
  {
    if !Separable(f) {
      KeyHasFour(f);
      var g := Recut(Key(f));
      assert Shares(f, g);
    }
    forall g | Shares(f, g) ensures !Separable(f) {
      if Separable(f) { KeysAreDistinct(f, g); }
    }
  }
}
