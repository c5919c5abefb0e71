/** The text patterns of attestation fields, spelled out by the characters they admit. */
module AttestationText {
  import opened Common
  import opened Decimals
  import opened ArtifactNames
  import opened Attestation

  const DIGITS := "0123456789"
  const LOWERCASE := "abcdefghijklmnopqrstuvwxyz"
  const UPPERCASE := "ABCDEFGHIJKLMNOPQRSTUVWXYZ"

  lemma DigitMeans(c: char)
    ensures Digit(c) <==> c in DIGITS
  {
    if Digit(c) { assert DIGITS[c as int - '0' as int] == c; }
  }

  lemma LowerMeans(c: char)
    ensures Lower(c) <==> c in LOWERCASE
  {
    if Lower(c) { assert LOWERCASE[c as int - 'a' as int] == c; }
  }

  lemma UpperMeans(c: char)
    ensures Upper(c) <==> c in UPPERCASE
  {
    if Upper(c) { assert UPPERCASE[c as int - 'A' as int] == c; }
  }

  lemma HexMeans(c: char)
    ensures Digit(c) || 'a' <= c <= 'f' <==> c in "0123456789abcdef"
  {
    if Digit(c) { assert "0123456789abcdef"[c as int - '0' as int] == c; }
    if 'a' <= c <= 'f' { assert "0123456789abcdef"[10 + c as int - 'a' as int] == c; }
  }

  /** Every character of `s` is one of `alphabet`. */
  predicate Over(s: string, alphabet: string) { forall i :: 0 <= i < |s| ==> s[i] in alphabet }

  /** Attestation ids: 1 to 64 lower-case letters, digits, dots, underscores and dashes, the first a letter or digit. */
  lemma IdPattern(id: string)
    ensures IdOk(id) <==> 1 <= |id| <= 64 && id[0] in LOWERCASE + DIGITS && Over(id, LOWERCASE + DIGITS + "._-")
  {
    forall c ensures (Lower(c) <==> c in LOWERCASE) && (Digit(c) <==> c in DIGITS) { LowerMeans(c); DigitMeans(c); }
    forall c ensures c in LOWERCASE + DIGITS <==> Lower(c) || Digit(c) {}
    forall c ensures c in LOWERCASE + DIGITS + "._-" <==> Lower(c) || Digit(c) || c in "._-" {}
  }

  /** Commit ids: 40 lower-case hexadecimal digits. */
  lemma ShaPattern(s: string)
    ensures ShaOk(s) <==> |s| == 40 && Over(s, "0123456789abcdef")
  {
    forall c ensures Digit(c) || 'a' <= c <= 'f' <==> c in "0123456789abcdef" { HexMeans(c); }
  }

  /** An owner or a repository name. */
  predicate IsSlug(s: string) { s != "" && Over(s, UPPERCASE + LOWERCASE + DIGITS + "._-") }

  lemma SlugPattern(s: string)
    ensures SlugOk(s) <==> IsSlug(s)
  {
    forall c ensures c in UPPERCASE + LOWERCASE + DIGITS + "._-"
      <==> Upper(c) || Lower(c) || Digit(c) || c in "._-" { UpperMeans(c); LowerMeans(c); DigitMeans(c); }
  }

  /** Repositories: an owner and a name, neither empty, with one slash between them. */
  lemma RepoPattern(s: string)
    ensures RepoOk(s) <==> exists owner, name :: s == owner + "/" + name && IsSlug(owner) && IsSlug(name)
  {
    hide SlugOk, IsSlug;
    if RepoOk(s) {
      var i :| 0 <= i < |s| && s[i] == '/' && SlugOk(s[..i]) && SlugOk(s[i + 1..]);
      SlugPattern(s[..i]);
      SlugPattern(s[i + 1..]);
      assert s == s[..i] + "/" + s[i + 1..];
    }
    if exists owner, name :: s == owner + "/" + name && IsSlug(owner) && IsSlug(name) {
      var owner, name :| s == owner + "/" + name && IsSlug(owner) && IsSlug(name);
      SlugPattern(owner);
      SlugPattern(name);
      assert s[|owner|] == '/' && s[..|owner|] == owner && s[|owner| + 1..] == name;
    }
  }

  /** Keys in `needs`: letters, digits, underscores and dashes, the first a letter or underscore. */
  lemma NeedsKeyPattern(s: string)
    ensures NeedsKeyOk(s)
            <==> s != "" && s[0] in UPPERCASE + LOWERCASE + "_" && Over(s, UPPERCASE + LOWERCASE + DIGITS + "_-")
  {
    forall c ensures c in UPPERCASE + LOWERCASE + "_" <==> Upper(c) || Lower(c) || c == '_' {
      UpperMeans(c);
      LowerMeans(c);
    }
    forall c ensures c in UPPERCASE + LOWERCASE + DIGITS + "_-" <==> Upper(c) || Lower(c) || Digit(c) || c in "_-" {
      UpperMeans(c);
      LowerMeans(c);
      DigitMeans(c);
    }
  }
}
