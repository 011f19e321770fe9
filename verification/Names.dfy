/** Strings as the record conversion uses them: their order, decimal printing and os.path.splitext. */
module Names {

  // ---------------------------------------------------------------- order

  /** Python's order on strings: by code point, a proper prefix first. */
  predicate Less(a: string, b: string) {
    b != [] && (a == [] || a[0] < b[0] || (a[0] == b[0] && Less(a[1..], b[1..])))
  }

  lemma {:induction false} LessTrichotomy(a: string, b: string)
    ensures Less(a, b) || a == b || Less(b, a)
    ensures !(Less(a, b) && Less(b, a)) && (a == b ==> !Less(a, b))
    decreases |a|
  {
    if a != [] && b != [] && a[0] == b[0] {
      LessTrichotomy(a[1..], b[1..]);
      assert a == [a[0]] + a[1..] && b == [b[0]] + b[1..];
    }
  }

  /** Behind their first i characters, which are the same, a has ended or has the smaller character. */
  predicate DiffersAt(a: string, b: string, i: nat) {
    && i <= |a| && i < |b| && a[..i] == b[..i]
    && (i == |a| || a[i] < b[i])
  }

  lemma {:induction false} LessIff(a: string, b: string)
    ensures Less(a, b) <==> exists i: nat :: DiffersAt(a, b, i)
    decreases |a|
  {
    if a == [] || b == [] || a[0] != b[0] {
      assert Less(a, b) ==> DiffersAt(a, b, 0);
      assert forall i: nat :: DiffersAt(a, b, i) && 0 < i ==> a[..i][0] == b[..i][0];
    } else {
      LessIff(a[1..], b[1..]);
      if i: nat :| DiffersAt(a[1..], b[1..], i) {
        assert a[..i + 1] == [a[0]] + a[1..][..i] && b[..i + 1] == [b[0]] + b[1..][..i];
        assert DiffersAt(a, b, i + 1);
      }
      if i: nat :| DiffersAt(a, b, i) {
        assert a[1..][..i - 1] == a[..i][1..] && b[1..][..i - 1] == b[..i][1..];
        assert DiffersAt(a[1..], b[1..], i - 1);
      }
    }
  }

  lemma {:induction false} LessTransitive(a: string, b: string, c: string)
    requires Less(a, b) && Less(b, c)
    ensures Less(a, c)
    decreases |a|
  {
    if a != [] && a[0] == b[0] == c[0] {
      LessTransitive(a[1..], b[1..], c[1..]);
    }
  }

  lemma {:induction false} LessAfterPrefix(p: string, a: string, b: string)
    requires Less(a, b)
    ensures Less(p + a, p + b)
    decreases |p|
  {
    if p == [] {
      assert p + a == a && p + b == b;
    } else {
      LessAfterPrefix(p[1..], a, b);
      assert (p + a)[1..] == p[1..] + a && (p + b)[1..] == p[1..] + b;
    }
  }

  predicate IsLeast(least: string, s: set<string>) {
    least in s && forall x <- s :: x != least ==> Less(least, x)
  }

  lemma {:induction false} LeastExists(s: set<string>)
    requires s != {}
    ensures exists least :: IsLeast(least, s)
    decreases |s|
  {
    var y :| y in s;
    if s == {y} {
      assert IsLeast(y, s);
    } else {
      var rest := s - {y};
      assert s == rest + {y};
      LeastExists(rest);
      var z :| IsLeast(z, rest);
      LessTrichotomy(y, z);
      var least := if Less(y, z) then y else z;
      forall x <- s | x != least ensures Less(least, x) {
        if least == y && x != z { LessTransitive(y, z, x); }
      }
      assert IsLeast(least, s);
    }
  }

  ghost predicate Sorted(xs: seq<string>) {
    forall i, j :: 0 <= i < j < |xs| ==> Less(xs[i], xs[j])
  }

  /** The keys of a dictionary, sorted. */
  ghost function SortedKeys(s: set<string>): seq<string>
    decreases |s|
  {
    if s == {} then []
    else
      LeastExists(s);
      var least :| IsLeast(least, s);
      [least] + SortedKeys(s - {least})
  }

  lemma {:induction false} SortedKeysSorts(s: set<string>)
    ensures Sorted(SortedKeys(s)) && |SortedKeys(s)| == |s| && forall x :: x in SortedKeys(s) <==> x in s
    decreases |s|
  {
    if s != {} {
      LeastExists(s);
      var xs := SortedKeys(s);
      var rest := xs[1..];
      assert IsLeast(xs[0], s) && rest == SortedKeys(s - {xs[0]});
      SortedKeysSorts(s - {xs[0]});
      assert xs == [xs[0]] + rest;
      forall j | 1 <= j < |xs| ensures Less(xs[0], xs[j]) {
        assert xs[j] == rest[j - 1] && rest[j - 1] in rest;
      }
    }
  }

  lemma SortedIsDistinct(xs: seq<string>)
    requires Sorted(xs)
    ensures forall i, j :: 0 <= i < j < |xs| ==> xs[i] != xs[j]
  {
    forall i, j | 0 <= i < j < |xs| ensures xs[i] != xs[j] {
      LessTrichotomy(xs[i], xs[j]);
    }
  }

  /** There is only one way to sort. */
  lemma {:induction false} SortedUnique(xs: seq<string>, ys: seq<string>)
    requires Sorted(xs) && Sorted(ys) && forall x :: x in xs <==> x in ys
    ensures xs == ys
    decreases |xs|
  {
    assert xs != [] ==> xs[0] in ys;
    assert ys != [] ==> ys[0] in xs;
    if xs != [] {
      LessTrichotomy(xs[0], ys[0]);
      SortedIsDistinct(xs);
      SortedIsDistinct(ys);
      forall x ensures x in xs[1..] <==> x in ys[1..] {
        assert x in xs[1..] <==> x in xs && x != xs[0] by { assert xs == [xs[0]] + xs[1..]; }
        assert x in ys[1..] <==> x in ys && x != ys[0] by { assert ys == [ys[0]] + ys[1..]; }
      }
      SortedUnique(xs[1..], ys[1..]);
    }
  }

  /** Sorts by repeated choice of the least key. */
  method SortKeys(s: set<string>) returns (xs: seq<string>)
    ensures xs == SortedKeys(s)
  {
    xs := [];
    var rest := s;
    while rest != {}
      invariant Sorted(xs) && rest <= s
      invariant forall x :: x in xs <==> x in s && x !in rest
      invariant forall x <- xs, y <- rest :: Less(x, y)
      decreases |rest|
    {
      LeastExists(rest);
      var least :| least in rest && IsLeast(least, rest);
      xs := xs + [least];
      rest := rest - {least};
    }
    SortedKeysSorts(s);
    SortedUnique(xs, SortedKeys(s));
  }

  // ---------------------------------------------------------------- decimal printing

  function Digit(d: nat): char
    requires d < 10
  {
    ('0' as int + d) as char
  }

  /** Decimal printing. */
  function Decimal(n: nat): string {
    if n < 10 then [Digit(n)] else Decimal(n / 10) + [Digit(n % 10)]
  }

  lemma {:induction false} DecimalDigits(n: nat)
    ensures Decimal(n) != [] && forall c <- Decimal(n) :: '0' <= c <= '9'
  {
    if n >= 10 {
      DecimalDigits(n / 10);
    }
  }

  /** The number that a text of digits stands for. */
  function NumberOf(digits: string): int {
    if digits == [] then 0
    else 10 * NumberOf(digits[..|digits| - 1]) + (digits[|digits| - 1] as int - '0' as int)
  }

  /** Decimal prints the number, without leading zeros. */
  lemma {:induction false} DecimalPrints(n: nat)
    ensures NumberOf(Decimal(n)) == n && (n > 0 ==> Decimal(n)[0] != '0')
  {
    DecimalDigits(n);
    if n >= 10 {
      DecimalDigits(n / 10);
      DecimalPrints(n / 10);
      assert Decimal(n)[..|Decimal(n)| - 1] == Decimal(n / 10);
    } else {
      assert NumberOf([]) == 0 && Decimal(n)[..0] == [];
    }
  }

  lemma DecimalInjective(m: nat, n: nat)
    requires Decimal(m) == Decimal(n)
    ensures m == n
  {
    DecimalPrints(m);
    DecimalPrints(n);
  }

  // ---------------------------------------------------------------- splitext

  /** Where a character occurs last, or -1. */
  function LastIndex(s: string, c: char): (r: int)
    ensures -1 <= r < |s|
  {
    if s == [] then -1
    else if s[|s| - 1] == c then |s| - 1
    else LastIndex(s[..|s| - 1], c)
  }

  lemma {:induction false} LastIndexIsLast(s: string, c: char)
    ensures var r := LastIndex(s, c);
            (r >= 0 ==> s[r] == c) && forall i :: r < i < |s| ==> s[i] != c
    decreases |s|
  {
    if s != [] && s[|s| - 1] != c {
      LastIndexIsLast(s[..|s| - 1], c);
    }
  }

  /** Text without c behind a string leaves its last c where it is. */
  lemma {:induction false} LastIndexWithout(a: string, b: string, c: char)
    requires c !in b
    ensures LastIndex(a + b, c) == LastIndex(a, c)
    decreases |b|
  {
    if b == [] {
      assert a + b == a;
    } else {
      var front := b[..|b| - 1];
      assert (a + b)[..|a + b| - 1] == a + front && (a + b)[|a + b| - 1] == b[|b| - 1];
      assert c !in front && b[|b| - 1] in b;
      LastIndexWithout(a, front, c);
    }
  }

  /** os.path.splitext on POSIX: leading dots of the last path component start no extension. */
  function SplitExt(p: string): (string, string) {
    var sep := LastIndex(p, '/');
    var dot := LastIndex(p, '.');
    if dot > sep && exists i :: sep < i < dot && p[i] != '.' then (p[..dot], p[dot..]) else (p, "")
  }

  /** p is a directory, a stem that is not only dots, a dot, and a rest without dots and slashes. */
  predicate HasExtension(p: string, dir: string, stem: string, rest: string) {
    && p == dir + stem + ("." + rest)
    && (dir == "" || dir[|dir| - 1] == '/')
    && '/' !in stem && (exists i :: 0 <= i < |stem| && stem[i] != '.')
    && '.' !in rest && '/' !in rest
  }

  lemma ExtensionIs(p: string, dir: string, stem: string, rest: string)
    requires HasExtension(p, dir, stem, rest)
    ensures SplitExt(p) == (dir + stem, "." + rest)
  {
    LastDot(dir + stem, rest);
    LastIndexWithout(dir, stem + ("." + rest), '/');
    assert dir + (stem + ("." + rest)) == p;
    assert LastIndex(dir, '/') == |dir| - 1;
    var i :| 0 <= i < |stem| && stem[i] != '.';
    assert p[|dir| + i] == stem[i];
    assert p[..|dir + stem|] == dir + stem && p[|dir + stem|..] == "." + rest;
  }

  lemma SliceLacks(p: string, from: nat, to: nat, c: char)
    requires from <= to <= |p| && forall i :: from <= i < to ==> p[i] != c
    ensures c !in p[from..to]
  {
  }

  lemma ThreeParts(p: string, from: nat, i: nat, dot: nat)
    requires from <= i < dot < |p| && p[dot] == '.' && p[i] != '.'
    ensures p == p[..from] + p[from..dot] + ("." + p[dot + 1..])
    ensures exists k :: 0 <= k < |p[from..dot]| && p[from..dot][k] != '.'
  {
    assert p[from..dot][i - from] == p[i];
  }

  lemma SplitHasExtension(p: string) returns (dir: string, stem: string, rest: string)
    requires SplitExt(p).1 != ""
    ensures HasExtension(p, dir, stem, rest)
  {
    var sep, dot := LastIndex(p, '/'), LastIndex(p, '.');
    LastIndexIsLast(p, '/');
    LastIndexIsLast(p, '.');
    dir, stem, rest := p[..sep + 1], p[sep + 1..dot], p[dot + 1..];
    var i :| sep < i < dot && p[i] != '.';
    ThreeParts(p, sep + 1, i, dot);
    SliceLacks(p, sep + 1, dot, '/');
    SliceLacks(p, dot + 1, |p|, '/');
    SliceLacks(p, dot + 1, |p|, '.');
  }

  /** A path has an extension exactly if it can be read like that; the extension is then the dot and the rest. */
  lemma SplitExtIff(p: string)
    ensures SplitExt(p).1 != "" <==> exists dir, stem, rest :: HasExtension(p, dir, stem, rest)
    ensures forall dir, stem, rest :: HasExtension(p, dir, stem, rest) ==> SplitExt(p) == (dir + stem, "." + rest)
    ensures SplitExt(p).1 == "" ==> SplitExt(p).0 == p
  {
    forall dir, stem, rest | HasExtension(p, dir, stem, rest) ensures SplitExt(p) == (dir + stem, "." + rest) {
      ExtensionIs(p, dir, stem, rest);
    }
    if SplitExt(p).1 != "" {
      var dir, stem, rest := SplitHasExtension(p);
    }
  }

  lemma SplitExtSplits(p: string)
    ensures SplitExt(p).0 + SplitExt(p).1 == p
  {
  }

  /** The name with a number between stem and extension. */
  function Numbered(name: string, k: nat): string {
    var (main, ext) := SplitExt(name);
    main + "_" + Decimal(k) + ext
  }

  /** The number goes in front of the extension, if there is one, and behind the name otherwise. */
  lemma NumberedIff(name: string, k: nat)
    ensures forall dir, stem, rest :: HasExtension(name, dir, stem, rest) ==>
              Numbered(name, k) == dir + stem + "_" + Decimal(k) + ("." + rest)
    ensures Numbered(name, k) == name + "_" + Decimal(k) <==>
              !exists dir, stem, rest :: HasExtension(name, dir, stem, rest)
  {
    SplitExtIff(name);
    SplitExtSplits(name);
    if SplitExt(name).1 != "" {
      var dir, stem, rest := SplitHasExtension(name);
      var n := |dir + stem|;
      assert Numbered(name, k)[n] == '_' && (name + "_" + Decimal(k))[n] == '.';
    }
  }

  /** Inserting text without dots and slashes in front of the extension leaves splitext's verdict alone. */
  lemma SplitExtOfInserted(name: string, mid: string)
    requires '.' !in mid && '/' !in mid
    ensures var (main, ext) := SplitExt(name);
            SplitExt(main + mid + ext) == (main + mid, ext)
  {
    SplitExtSplits(name);
    var (main, ext) := SplitExt(name);
    var head := main + mid;
    LastIndexWithout(main, mid, '/');
    LastIndexWithout(main, mid, '.');
    if ext == "" {
      assert name == main && head + ext == head;
    } else {
      var rest := ext[1..];
      var p := head + ext;
      assert ext == ['.'] + rest && '.' !in rest && '/' !in ext by { ExtensionShape(name); }
      LastDot(head, rest);
      LastIndexWithout(head, ext, '/');
      LastIndexWithout(main, ext, '/');
      var i :| LastIndex(name, '/') < i < LastIndex(name, '.') && name[i] != '.';
      assert i < |main| && p[i] == main[i] == name[i];
      assert p[..|head|] == head && p[|head|..] == ext;
    }
  }

  lemma LastDot(head: string, rest: string)
    requires '.' !in rest
    ensures LastIndex(head + (['.'] + rest), '.') == |head|
  {
    assert head + ['.'] + rest == head + (['.'] + rest);
    LastIndexWithout(head + ['.'], rest, '.');
  }

  lemma ExtensionShape(name: string)
    requires SplitExt(name).1 != ""
    ensures var ext := SplitExt(name).1;
            ext[0] == '.' && '.' !in ext[1..] && '/' !in ext
  {
    var ext := SplitExt(name).1;
    var dot := LastIndex(name, '.');
    LastIndexIsLast(name, '.');
    LastIndexIsLast(name, '/');
    assert forall i :: 0 <= i < |ext| ==> ext[i] == name[dot + i];
  }

  lemma SplitExtOfNumbered(name: string, k: nat)
    ensures SplitExt(Numbered(name, k)) == (SplitExt(name).0 + "_" + Decimal(k), SplitExt(name).1)
  {
    var (main, ext) := SplitExt(name);
    DecimalDigits(k);
    SplitExtOfInserted(name, "_" + Decimal(k));
    assert main + ("_" + Decimal(k)) == main + "_" + Decimal(k);
  }

  lemma LastUnderscore(a: string, k: nat)
    ensures LastIndex(a + "_" + Decimal(k), '_') == |a|
  {
    DecimalDigits(k);
    LastIndexWithout(a + "_", Decimal(k), '_');
  }

  /** The numbered names of one or two names never coincide: the last underscore of the stem tells them apart. */
  lemma NumberedInjective(m: string, j: nat, n: string, k: nat)
    requires Numbered(m, j) == Numbered(n, k)
    ensures m == n && j == k
  {
    SplitExtOfNumbered(m, j);
    SplitExtOfNumbered(n, k);
    var a, b := SplitExt(m).0, SplitExt(n).0;
    var x, y := a + "_" + Decimal(j), b + "_" + Decimal(k);
    assert x == y;
    LastUnderscore(a, j);
    LastUnderscore(b, k);
    assert a == x[..|a|] == y[..|b|] == b;
    assert Decimal(j) == x[|a| + 1..] == y[|b| + 1..] == Decimal(k);
    DecimalInjective(j, k);
    SplitExtSplits(m);
    SplitExtSplits(n);
  }

  lemma NumberedExample()
    ensures Numbered("log.txt", 0) == "log_0.txt"
    ensures Numbered("a/.log", 12) == "a/.log_12"
  {
    var p, q := "log.txt", "a/.log";
    ExtensionIs(p, "", "log", "txt") by {
      assert "log"[0] == 'l';
      assert p == "" + "log" + ("." + "txt");
    }
    assert SplitExt(q).1 == "" by {
      LastIndexIsLast(q, '/');
      assert q[1] == '/' && q[2] == '.';
    }
    assert Decimal(12) == Decimal(1) + "2";
  }

  /** '.' sorts before '_', so numbering moves a name up. */
  lemma NumberedIsGreater(name: string, k: nat)
    ensures Less(name, Numbered(name, k))
  {
    var (main, ext) := SplitExt(name);
    var tail := "_" + Decimal(k) + ext;
    SplitExtSplits(name);
    LastIndexIsLast(name, '.');
    assert Less(ext, tail);
    LessAfterPrefix(main, ext, tail);
    assert main + tail == Numbered(name, k);
  }
}
