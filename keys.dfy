/**
 * The small helpers every variant shares: unpacking a selector into its key
 * and argument dictionary, splitting a key at its alias separator, the
 * argument dictionary forwarded to a nested selection, and the removal of
 * `empty` entries from a finished dictionary.
 */
module Keys {

  import opened Wrappers
  import opened Values

  /** The alias separator of `unpack_key`. */
  const Separator := " as "

  /** `unpack_args`: a tuple is already `(key, args)`; a bare key gets the empty dictionary. */
  function UnpackArgs(s: Selector): (r: (string, Args))
    ensures r.0 == s.key
    ensures s.Pair? ==> r.1 == s.args
    ensures s.Bare? ==> r.1 == NoArgs
    ensures ArgsSize(r.1) + AttrSize(r.1.attr) + 2 <= SelectorSize(s)
  {
    match s
    case Bare(k) => (k, NoArgs)
    case Pair(k, a) => (k, a)
  }

  /** The separator occurs in `s` starting at position `i`. */
  predicate SepAt(s: string, i: int)
  {
    0 <= i && i + |Separator| <= |s| && s[i..i + |Separator|] == Separator
  }

  predicate HasSep(s: string)
  {
    exists i :: 0 <= i <= |s| && SepAt(s, i)
  }

  /** The first occurrence of the separator at or after `from`, as `str.find` reports it. */
  function FindSep(s: string, from: nat): (r: Option<nat>)
    ensures r.Some? ==> from <= r.value && SepAt(s, r.value)
                        && forall j :: from <= j < r.value ==> !SepAt(s, j)
    ensures r.None? ==> forall j :: from <= j ==> !SepAt(s, j)
    decreases |s| - from
  {
    if from + |Separator| > |s| then None
    else if s[from..from + |Separator|] == Separator then Some(from)
    else FindSep(s, from + 1)
  }

  /**
   * `unpack_key`: `key.split(' as ')` unpacked into an attribute name and an
   * alias.  Without a separator both are the key; with exactly one they are
   * the text around it; a second separator leaves three parts, which the
   * two-name unpacking refuses.
   */
  function UnpackKey(key: string): (r: Result<(string, string), Error>)
    ensures !HasSep(key) ==> r == Ok((key, key))
    ensures r.Ok? && HasSep(key) ==>
              key == r.value.0 + Separator + r.value.1 && !HasSep(r.value.0) && !HasSep(r.value.1)
    ensures r.Ok? && HasSep(key) ==> FindSep(key, 0) == Some(|r.value.0|)
    ensures r.Err? ==> r.error == UnpackError(key)
  {
    match FindSep(key, 0)
    case None => Ok((key, key))
    case Some(i) =>
      var before, after := key[..i], key[i + |Separator|..];
      if FindSep(key, i + |Separator|).Some? then Err(UnpackError(key))
      else
        PrefixWithoutSep(key, i);
        SuffixWithoutSep(key, i + |Separator|);
        assert key == before + Separator + after;
        Ok((before, after))
  }

  /** `"src as alias"`: the key `unpack_key` splits back into `src` and `alias`. */
  function Aliased(src: string, alias: string): (k: string)
    ensures HasSep(k)
  {
    var k := src + Separator + alias;
    assert SepAt(k, |src|) by { assert k[|src|..|src| + |Separator|] == Separator; }
    k
  }

  /** A prefix ending before the first occurrence holds no separator. */
  lemma PrefixWithoutSep(s: string, n: nat)
    requires n <= |s| && forall j :: 0 <= j < n ==> !SepAt(s, j)
    ensures !HasSep(s[..n])
  {
    forall j | 0 <= j <= n ensures !SepAt(s[..n], j) {
      if j + |Separator| <= n {
        assert !SepAt(s, j);
        assert s[..n][j..j + |Separator|] == s[j..j + |Separator|];
      }
    }
  }

  /** A suffix starting after the last occurrence holds no separator. */
  lemma SuffixWithoutSep(s: string, n: nat)
    requires n <= |s| && forall j :: n <= j ==> !SepAt(s, j)
    ensures !HasSep(s[n..])
  {
    forall j | 0 <= j <= |s| - n ensures !SepAt(s[n..], j) {
      if j + |Separator| <= |s| - n {
        assert !SepAt(s, j + n);
        assert s[n..][j..j + |Separator|] == s[j + n..j + n + |Separator|];
      }
    }
  }

  /** An occurrence inside the left part of a concatenation is one of the whole. */
  lemma SepInLeft(x: string, y: string, j: int)
    requires 0 <= j && j + |Separator| <= |x|
    ensures SepAt(x + y, j) <==> SepAt(x, j)
  {
    assert (x + y)[j..j + |Separator|] == x[j..j + |Separator|];
  }

  /** An occurrence inside the right part of a concatenation is one of the whole, shifted. */
  lemma SepInRight(x: string, y: string, j: int)
    requires 0 <= j
    ensures SepAt(x + y, |x| + j) <==> SepAt(y, j)
  {
    if j + |Separator| <= |y| {
      assert (x + y)[|x| + j..|x| + j + |Separator|] == y[j..j + |Separator|];
    }
  }

  /**
   * No occurrence of the separator in `src + " as " + alias` starts inside
   * `src` when `src` holds none and does not end in " as".
   */
  lemma NoSepInsideSource(src: string, alias: string, j: int)
    requires !HasSep(src)
    requires !(|src| >= 3 && src[|src| - 3..] == " as")
    requires 0 <= j < |src|
    ensures !SepAt(Aliased(src, alias), j)
  {
    var k := Aliased(src, alias);
    var n := |src|;
    assert k == src + (Separator + alias);
    if j + |Separator| <= n {
      SepInLeft(src, Separator + alias, j);
    } else {
      assert k[n] == ' ';
      if j == n - 3 {
        assert src[n - 3..] == k[n - 3..n];
        assert k[j..j + |Separator|][..3] == k[n - 3..n];
        assert Separator[..3] == " as";
      } else if j == n - 2 {
        assert k[j..j + |Separator|][2] == k[n];
      } else {
        assert k[j..j + |Separator|][1] == k[n];
      }
    }
  }

  /**
   * Splitting an aliased key gives back its two names, provided neither
   * holds the separator and the name does not end in " as" (which would
   * make the separator start inside it).
   */
  lemma UnpackAliased(src: string, alias: string)
    requires !HasSep(src) && !HasSep(alias)
    requires !(|src| >= 3 && src[|src| - 3..] == " as")
    ensures UnpackKey(Aliased(src, alias)) == Ok((src, alias))
  {
    var k := Aliased(src, alias);
    var n := |src|;
    forall j | 0 <= j < n ensures !SepAt(k, j) {
      NoSepInsideSource(src, alias, j);
    }
    assert k == (src + Separator) + alias;
    forall j | n + |Separator| <= j ensures !SepAt(k, j) {
      SepInRight(src + Separator, alias, j - n - |Separator|);
    }
    assert k == src + (Separator + alias);
    SepInRight(src, Separator + alias, 0);
    SepInLeft(Separator, alias, 0);
    assert SepAt(Separator, 0);
    assert SepAt(k, n);
    assert FindSep(k, 0) == Some(n);
    assert k[..n] == src && k[n + |Separator|..] == alias;
  }

  /** A key with two separators cannot be unpacked into two names. */
  lemma TwoSeparatorsRefused(a: string, b: string, c: string)
    ensures UnpackKey(Aliased(Aliased(a, b), c)).Err?
  {
    var k := Aliased(Aliased(a, b), c);
    assert SepAt(k, |a|) by { assert k[|a|..|a| + 4] == Separator; }
    assert SepAt(k, |a| + 4 + |b|) by { assert k[|a| + 4 + |b|..|a| + 8 + |b|] == Separator; }
  }

  /**
   * Overlapping separators: `"x as as y"` splits at the first `" as "`, so
   * the alias keeps the second "as", as `split` does.
   */
  lemma OverlappingSeparators()
    ensures UnpackKey("x as as y") == Ok(("x", "as y"))
  {
    var k := "x as as y";
    assert SepAt(k, 1) by { assert k[1..5] == Separator; }
    assert !SepAt(k, 0) by { assert k[0] != Separator[0]; }
    assert FindSep(k, 0) == Some(1);
    assert !SepAt(k, 5) by { assert k[5] != Separator[0]; }
    assert !SepAt(k, 6) by { assert k[6] != Separator[0]; }
    assert FindSep(k, 5) == None;
    assert k[..1] == "x" && k[5..] == "as y";
  }

  /**
   * `copy_args`: the dictionary handed to a nested selection holds `only`,
   * `include` and `exclude` with their values when present, and nothing
   * else; the default in particular is not forwarded.
   */
  function CopyArgs(a: Args): (r: Args)
    ensures r.only == a.only && r.includes == a.includes && r.exclude == a.exclude
    ensures r.default.None? && r.attr.None? && r.funcArgs.None?
    ensures ArgsSize(r) + (match a.default case Some(d) => Size(d) case None => 0) == ArgsSize(a)
  {
    Args(a.only, a.exclude, a.includes, None, None, None)
  }

  /** Copying a copied dictionary changes nothing. */
  lemma CopyArgsIdempotent(a: Args)
    ensures CopyArgs(CopyArgs(a)) == CopyArgs(a)
  {
  }

  /** `exclude and key in exclude`, on the raw key. */
  predicate Excluded(key: string, exclude: Option<seq<string>>)
    ensures exclude.None? || exclude == Some([]) ==> !Excluded(key, exclude)
    ensures Excluded(key, exclude) ==> exists i :: 0 <= i < |exclude.value| && exclude.value[i] == key
  {
    exclude.Some? && key in exclude.value
  }

  /**
   * `cleanup`: the entries whose value is not the `empty` sentinel, with
   * their values unchanged.
   */
  function Cleanup(m: map<string, Value>): (r: map<string, Value>)
    ensures forall k :: k in r <==> k in m && m[k] != Missing
    ensures forall k :: k in r ==> r[k] == m[k]
  {
    map k | k in m && m[k] != Missing :: m[k]
  }

  /** Cleaning up twice is cleaning up once. */
  lemma CleanupIdempotent(m: map<string, Value>)
    ensures Cleanup(Cleanup(m)) == Cleanup(m)
  {
  }

  /** A dictionary without `empty` values is left as it is. */
  lemma CleanupKeepsClean(m: map<string, Value>)
    requires forall k :: k in m ==> m[k] != Missing
    ensures Cleanup(m) == m
  {
  }
}
