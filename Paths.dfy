/** The pieces of Python's `posixpath` that the application relies on:
    `splitext`, the final path component, and `join` of two parts. */
module Paths {
  import opened Text

  /** True when some character of `s` is not a dot. */
  predicate HasNonDot(s: string) {
    exists i :: 0 <= i < |s| && s[i] != '.'
  }

  /** Everything after the last '/' of `p` (`posixpath.basename`). */
  function BaseName(p: string): (b: string)
    ensures '/' !in b
    ensures |b| <= |p| && p[|p| - |b|..] == b
    ensures |b| == |p| || p[|p| - |b| - 1] == '/'
  {
    p[RFind(p, '/') + 1..]
  }

  /** `posixpath.splitext`: the extension is the text from the last dot of the
      final component, provided some non-dot character precedes that dot in the
      component (so leading dots, as in ".profile", never start an extension);
      otherwise the extension is empty. */
  function SplitExt(p: string): (parts: (string, string))
    ensures parts.0 + parts.1 == p
  {
    var sepIndex := RFind(p, '/');
    var dotIndex := RFind(p, '.');
    if dotIndex > sepIndex && HasNonDot(p[sepIndex + 1..dotIndex]) then
      var parts := (p[..dotIndex], p[dotIndex..]);
      assert parts.0 + parts.1 == p;
      parts
    else
      (p, "")
  }

  /** The root `splitext` returns still holds the whole directory part. */
  lemma SplitExtKeepsDirectory(p: string)
    ensures RFind(p, '/') + 1 <= |SplitExt(p).0|
  {
  }

  /** What `splitext` splits off: either a dot followed by dot- and slash-free
      text, after a root whose final component has a non-dot character; or
      nothing, when the final component has no dot or only dots before its
      last dot. */
  lemma SplitExtShape(p: string)
    ensures var (root, ext) := SplitExt(p);
      ext != "" ==> ext[0] == '.' && '.' !in ext[1..] && '/' !in ext && HasNonDot(BaseName(root))
    ensures var (root, ext) := SplitExt(p);
      ext == "" ==> var b := BaseName(p); '.' !in b || !HasNonDot(b[..RFind(b, '.')])
  {
    var sepIndex, dotIndex := RFind(p, '/'), RFind(p, '.');
    if dotIndex > sepIndex && HasNonDot(p[sepIndex + 1..dotIndex]) {
      WithExtension(p);
    } else {
      NoExtension(p);
    }
  }

  /** When `splitext` finds an extension, it starts at the last dot, holds no
      other dot and no '/', and the root's final component has a non-dot
      character. */
  lemma WithExtension(p: string)
    requires var sepIndex, dotIndex := RFind(p, '/'), RFind(p, '.');
      dotIndex > sepIndex && HasNonDot(p[sepIndex + 1..dotIndex])
    ensures var dotIndex := RFind(p, '.'); var ext := p[dotIndex..];
      ext[0] == '.' && '.' !in ext[1..] && '/' !in ext && HasNonDot(BaseName(p[..dotIndex]))
  {
    var sepIndex, dotIndex := RFind(p, '/'), RFind(p, '.');
    ExtensionChars(p, sepIndex, dotIndex);
    RootComponent(p, sepIndex, dotIndex);
  }

  /** The text from the last dot on, past the last '/', has no other dot and no '/'. */
  lemma ExtensionChars(p: string, sepIndex: int, dotIndex: int)
    requires sepIndex == RFind(p, '/') && dotIndex == RFind(p, '.') && dotIndex > sepIndex
    ensures var ext := p[dotIndex..]; ext[0] == '.' && '.' !in ext[1..] && '/' !in ext
  {
    AfterLast(p, '.', dotIndex + 1);
    assert p[dotIndex..][1..] == p[dotIndex + 1..];
    AfterLast(p, '/', dotIndex);
  }

  /** Cutting at a dot past the last '/' keeps that '/' as the root's last. */
  lemma RootComponent(p: string, sepIndex: int, dotIndex: int)
    requires sepIndex == RFind(p, '/') && sepIndex < dotIndex < |p|
    ensures BaseName(p[..dotIndex]) == p[sepIndex + 1..dotIndex]
  {
    RFindPrefix(p, '/', dotIndex);
  }

  /** Past the last `c` there is no `c`. */
  lemma AfterLast(s: string, c: char, k: nat)
    requires RFind(s, c) < k <= |s|
    ensures c !in s[k..]
  {
    var tail := s[RFind(s, c) + 1..];
    forall i | 0 <= i < |s| - k ensures s[k..][i] != c {
      assert s[k..][i] == tail[k - RFind(s, c) - 1 + i];
    }
  }

  /** When `splitext` finds no extension, the final component has no dot, or
      only dots precede its last dot. */
  lemma NoExtension(p: string)
    requires var sepIndex, dotIndex := RFind(p, '/'), RFind(p, '.');
      !(dotIndex > sepIndex && HasNonDot(p[sepIndex + 1..dotIndex]))
    ensures var b := BaseName(p); '.' !in b || !HasNonDot(b[..RFind(b, '.')])
  {
    var sepIndex, dotIndex := RFind(p, '/'), RFind(p, '.');
    var b := p[sepIndex + 1..];
    if '.' in b {
      var j := RFind(b, '.');
      RFindSuffix(p, '.', sepIndex + 1);
      assert b[..j] == p[sepIndex + 1..dotIndex];
    }
  }

  /** The last `c` of a prefix that keeps the last `c` of the whole string. */
  lemma RFindPrefix(s: string, c: char, n: nat)
    requires RFind(s, c) < n <= |s|
    ensures RFind(s[..n], c) == RFind(s, c)
  {
    var i, j := RFind(s, c), RFind(s[..n], c);
  }

  /** Past position `k`, the last `c` of a suffix is the last `c` of the whole
      string, shifted by `k`. */
  lemma RFindSuffix(s: string, c: char, k: nat)
    requires k <= |s| && c in s[k..]
    ensures RFind(s[k..], c) == RFind(s, c) - k
  {
    var i, j := RFind(s, c), RFind(s[k..], c);
    assert s[k..][j] == s[k + j];
  }

  /** Appending text without `c` keeps the last `c`. */
  lemma RFindAppend(s: string, t: string, c: char)
    requires c !in t
    ensures RFind(s + t, c) == RFind(s, c)
  {
    var u := s + t;
    assert u[..|s|] == s;
    if c in s {
      assert RFind(u, c) < |s| by {
        assert u[|s|..] == t;
      }
      RFindPrefix(u, c, |s|);
    } else {
      assert c !in u by {
        forall i | 0 <= i < |u| ensures u[i] != c {
          if i < |s| { assert u[i] == s[i]; } else { assert u[i] == t[i - |s|]; }
        }
      }
    }
  }

  /** Splitting `root + ext`, for an extension made of a dot and dot- and
      slash-free text: the extension comes back exactly when the final
      component of `root` has a non-dot character. */
  lemma SplitExtOfAppended(root: string, ext: string)
    requires |ext| >= 1 && ext[0] == '.' && '.' !in ext[1..] && '/' !in ext
    ensures HasNonDot(BaseName(root)) ==> SplitExt(root + ext) == (root, ext)
    ensures !HasNonDot(BaseName(root)) ==> SplitExt(root + ext) == (root + ext, "")
  {
    var p := root + ext;
    RFindAppend(root, ext, '/');
    var sepIndex := RFind(p, '/');
    var dotIndex := RFind(p, '.');
    assert p[|root|] == '.';
    assert p[|root| + 1..] == ext[1..];
    assert dotIndex == |root|;
    assert p[sepIndex + 1..dotIndex] == BaseName(root);
    assert p[..dotIndex] == root && p[dotIndex..] == ext;
  }

  /** `posixpath.join(a, b)`: an absolute `b` replaces `a`; otherwise a '/' is
      inserted unless `a` is empty or already ends with one. */
  function Join(a: string, b: string): (r: string)
    ensures StartsWith(b, "/") ==> r == b
    ensures !StartsWith(b, "/") && a != "" && a[|a| - 1] != '/' ==> r == a + "/" + b
    ensures !StartsWith(b, "/") && (a == "" || a[|a| - 1] == '/') ==> r == a + b
  {
    if StartsWith(b, "/") then b
    else if a == "" || a[|a| - 1] == '/' then a + b
    else a + "/" + b
  }
}
