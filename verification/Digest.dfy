/** Normalisation of image IDs to OCI digests. */
module Digest {
  const RUNTIME_PREFIXES: seq<string> := ["docker://", "containerd://", "cri-o://", "docker-pullable://"]

  function TrimPrefix(s: string, prefix: string): string {
    if prefix <= s then s[|prefix|..] else s
  }

  /** The prefixes are tried one after the other, each on what is left. */
  function Strip(s: string, prefixes: seq<string>): string
    decreases |prefixes|
  {
    if prefixes == [] then s else Strip(TrimPrefix(s, prefixes[0]), prefixes[1..])
  }

  function AfterFirst(s: string, c: char): string
    requires c in s
  {
    if s[0] == c then s[1..] else AfterFirst(s[1..], c)
  }

  function AfterAt(s: string): string {
    if '@' in s then AfterFirst(s, '@') else s
  }

  function LowerChar(c: char): char {
    if 'A' <= c <= 'Z' then (c as int + 32) as char else c
  }

  function Lower(s: string): (t: string)
    ensures |t| == |s| && forall i :: 0 <= i < |s| ==> t[i] == LowerChar(s[i])
  {
    seq(|s|, i requires 0 <= i < |s| => LowerChar(s[i]))
  }

  /** extractSha256Digest: only a text with a colon has its case changed. */
  function Normalise(imageId: string): string {
    if imageId == "" then ""
    else
      var digest := AfterAt(Strip(imageId, RUNTIME_PREFIXES));
      if ':' in digest then Lower(digest) else "sha256:" + digest
  }

  /** The same as the loop that computes it. */
  method ExtractSha256Digest(imageId: string) returns (digest: string)
    ensures digest == Normalise(imageId)
  {
    if imageId == "" {
      return "";
    }
    digest := imageId;
    for i := 0 to |RUNTIME_PREFIXES|
      invariant Strip(digest, RUNTIME_PREFIXES[i..]) == Strip(imageId, RUNTIME_PREFIXES)
    {
      assert RUNTIME_PREFIXES[i..][1..] == RUNTIME_PREFIXES[i + 1..];
      digest := TrimPrefix(digest, RUNTIME_PREFIXES[i]);
    }
    digest := AfterAt(digest);
    if ':' in digest {
      digest := Lower(digest);
    } else {
      digest := "sha256:" + digest;
    }
  }

  // ----- Digests of the OCI image specification -----

  predicate IsHex(c: char) {
    '0' <= c <= '9' || 'a' <= c <= 'f'
  }

  predicate Encoded(d: string, algorithm: string, length: nat) {
    && algorithm + ":" <= d
    && |d| == |algorithm| + 1 + length
    && forall i :: |algorithm| + 1 <= i < |d| ==> IsHex(d[i])
  }

  predicate ValidDigest(d: string) {
    Encoded(d, "sha256", 64) || Encoded(d, "sha384", 96) || Encoded(d, "sha512", 128)
  }

  /** A digest is valid exactly when it names an algorithm, a colon and as many
      lower-case hexadecimal digits as that algorithm has. */
  lemma ValidDigestIff(d: string)
    ensures ValidDigest(d) <==> exists digits ::
              && (forall i :: 0 <= i < |digits| ==> '0' <= digits[i] <= '9' || 'a' <= digits[i] <= 'f')
              && (|| (d == "sha256:" + digits && |digits| == 64)
                  || (d == "sha384:" + digits && |digits| == 96)
                  || (d == "sha512:" + digits && |digits| == 128))
  {
    assert "sha256" + ":" == "sha256:" && "sha384" + ":" == "sha384:" && "sha512" + ":" == "sha512:";
    if ValidDigest(d) {
      var digits := d[7..];
      assert d == d[..7] + digits;
      assert d[..7] == "sha256:" || d[..7] == "sha384:" || d[..7] == "sha512:";
    }
  }

  lemma ValidDigestShape(d: string)
    requires ValidDigest(d)
    ensures |d| > 7 && d[0] == 's' && d[6] == ':' && '@' !in d && Lower(d) == d
  {
    var head := d[..7];
    assert "sha256" + ":" == "sha256:" && "sha384" + ":" == "sha384:" && "sha512" + ":" == "sha512:";
    assert head == "sha256:" || head == "sha384:" || head == "sha512:";
    assert forall i :: 7 <= i < |d| ==> IsHex(d[i]);
    assert forall i :: 0 <= i < 7 ==> d[i] == head[i] && d[i] != '@' && LowerChar(d[i]) == d[i];
  }

  predicate HasRuntimePrefix(s: string) {
    exists i :: 0 <= i < |RUNTIME_PREFIXES| && RUNTIME_PREFIXES[i] <= s
  }

  lemma RuntimePrefixIff(s: string)
    ensures HasRuntimePrefix(s) <==>
            "docker://" <= s || "containerd://" <= s || "cri-o://" <= s || "docker-pullable://" <= s
  {
    assert RUNTIME_PREFIXES[0] == "docker://" && RUNTIME_PREFIXES[1] == "containerd://";
    assert RUNTIME_PREFIXES[2] == "cri-o://" && RUNTIME_PREFIXES[3] == "docker-pullable://";
  }

  lemma {:induction false} StripKeeps(s: string, prefixes: seq<string>)
    requires forall i :: 0 <= i < |prefixes| ==> prefixes[i] != ""
    ensures |Strip(s, prefixes)| <= |s|
    ensures Strip(s, prefixes) == s <==> forall i :: 0 <= i < |prefixes| ==> !(prefixes[i] <= s)
    decreases |prefixes|
  {
    if prefixes != [] {
      var rest := prefixes[1..];
      assert forall i :: 0 < i < |prefixes| ==> rest[i - 1] == prefixes[i];
      assert forall i :: 0 <= i < |rest| ==> rest[i] == prefixes[i + 1];
      StripKeeps(TrimPrefix(s, prefixes[0]), rest);
      if prefixes[0] <= s {
        assert |TrimPrefix(s, prefixes[0])| < |s|;
      }
    }
  }

  lemma {:induction false} AfterFirstShrinks(s: string, c: char)
    requires c in s
    ensures |AfterFirst(s, c)| < |s| && s[|s| - |AfterFirst(s, c)| - 1] == c
  {
    if s[0] != c {
      AfterFirstShrinks(s[1..], c);
    }
  }

  lemma {:induction false} AfterFirstSplits(a: string, c: char, b: string)
    requires c !in a
    ensures c in a + [c] + b && AfterFirst(a + [c] + b, c) == b
  {
    var s := a + [c] + b;
    assert s[|a|] == c;
    if a == "" {
      assert s[1..] == b;
    } else {
      assert s[1..] == a[1..] + [c] + b;
      AfterFirstSplits(a[1..], c, b);
    }
  }

  lemma StrippedIff(r: string)
    ensures |Strip(r, RUNTIME_PREFIXES)| <= |r|
    ensures Strip(r, RUNTIME_PREFIXES) == r <==> !HasRuntimePrefix(r)
    ensures HasRuntimePrefix(r) ==> r != "" && r[0] != 's'
  {
    StripKeeps(r, RUNTIME_PREFIXES);
    if HasRuntimePrefix(r) {
      var i :| 0 <= i < |RUNTIME_PREFIXES| && RUNTIME_PREFIXES[i] <= r;
      assert r[0] == RUNTIME_PREFIXES[i][0];
    }
  }

  lemma CutIff(s: string)
    ensures |AfterAt(s)| <= |s|
    ensures AfterAt(s) == s <==> '@' !in s
    ensures '@' in s ==> |AfterAt(s)| < |s| && s[|s| - |AfterAt(s)| - 1] == '@'
  {
    if '@' in s {
      AfterFirstShrinks(s, '@');
    }
  }

  /** A text that gets an algorithm put in front of what is left of it was not normal. */
  lemma PrefixedMoves(r: string, rest: string)
    requires r != "" && rest == AfterAt(Strip(r, RUNTIME_PREFIXES))
    ensures "sha256:" + rest != r
  {
    StrippedIff(r);
    CutIff(Strip(r, RUNTIME_PREFIXES));
    var moved := "sha256:" + rest;
    assert moved[0] == 's' && moved[6] == ':' && |moved| == |rest| + 7;
  }

  /** Exactly the texts that normalisation leaves alone. */
  lemma FixedIff(r: string)
    ensures Normalise(r) == r <==> r == "" || (!HasRuntimePrefix(r) && '@' !in r && ':' in r && Lower(r) == r)
  {
    if r != "" {
      var stripped := Strip(r, RUNTIME_PREFIXES);
      StrippedIff(r);
      CutIff(stripped);
      PrefixedMoves(r, AfterAt(stripped));
    }
  }

  lemma LowerFacts(s: string)
    ensures Lower(Lower(s)) == Lower(s)
    ensures '@' in Lower(s) <==> '@' in s
    ensures Lower("sha256:" + s) == "sha256:" + Lower(s)
  {
    assert forall i :: 0 <= i < |s| ==> (Lower(s)[i] == '@' <==> s[i] == '@');
  }

  /** Idempotent exactly where one pass over prefixes and at sign was enough,
      and a text that lacked an algorithm was lower-case already. */
  lemma IdempotentIff(imageId: string)
    ensures Normalise(Normalise(imageId)) == Normalise(imageId) <==>
            imageId == "" ||
            var rest := AfterAt(Strip(imageId, RUNTIME_PREFIXES));
            '@' !in rest && if ':' in rest then !HasRuntimePrefix(Lower(rest)) else Lower(rest) == rest
  {
    var r := Normalise(imageId);
    FixedIff(r);
    if imageId != "" {
      NormaliseHasColon(imageId);
      var rest := AfterAt(Strip(imageId, RUNTIME_PREFIXES));
      LowerFacts(rest);
      if ':' !in rest {
        PrefixedLooks(rest);
      }
    }
  }

  lemma NormaliseBare(s: string)
    requires s != "" && !HasRuntimePrefix(s) && '@' !in s
    ensures Normalise(s) == if ':' in s then Lower(s) else "sha256:" + s
  {
    StrippedIff(s);
  }

  /** A text without an algorithm gets one first and is lower-cased next. */
  lemma BareTakesTwoPasses(rest: string)
    requires rest != "" && !HasRuntimePrefix(rest) && '@' !in rest && ':' !in rest
    ensures Normalise(rest) == "sha256:" + rest
    ensures Normalise("sha256:" + rest) == "sha256:" + Lower(rest)
  {
    NormaliseBare(rest);
    PrefixedLooks(rest);
    var once := "sha256:" + rest;
    assert once[6] == ':';
    NormaliseBare(once);
    LowerFacts(rest);
  }

  lemma CapitalsTwice(s: string)
    requires s != "" && forall i :: 0 <= i < |s| ==> 'A' <= s[i] <= 'Z'
    ensures Normalise(s) == "sha256:" + s && Normalise("sha256:" + s) == "sha256:" + Lower(s)
  {
    forall i | 0 <= i < |RUNTIME_PREFIXES| ensures !(RUNTIME_PREFIXES[i] <= s) {
      assert RUNTIME_PREFIXES[i][0] != s[0];
    }
    BareTakesTwoPasses(s);
  }

  /** So one in capitals is not normal after one pass. */
  lemma CapitalsTakeTwoPasses(s: string)
    requires s == "ABC"
    ensures Normalise(s) == "sha256:ABC" && Normalise(Normalise(s)) == "sha256:abc"
  {
    CapitalsTwice(s);
    assert Lower(s) == "abc";
  }

  lemma PrefixedLooks(rest: string)
    ensures var r := "sha256:" + rest;
      && !HasRuntimePrefix(r) && ('@' in r <==> '@' in rest)
      && (Lower(r) == r <==> Lower(rest) == rest)
  {
    var r := "sha256:" + rest;
    StrippedIff(r);
    LowerFacts(rest);
    assert r[7..] == rest;
    assert ("sha256:" + Lower(rest))[7..] == Lower(rest);
  }

  lemma NormaliseHasColon(imageId: string)
    requires imageId != ""
    ensures ':' in Normalise(imageId)
  {
    var digest := AfterAt(Strip(imageId, RUNTIME_PREFIXES));
    if ':' in digest {
      var i :| 0 <= i < |digest| && digest[i] == ':';
      assert Lower(digest)[i] == ':';
    } else {
      assert ("sha256:" + digest)[6] == ':';
    }
  }

  lemma ValidIsFixed(d: string)
    requires ValidDigest(d)
    ensures Normalise(d) == d
  {
    ValidDigestShape(d);
    FixedIff(d);
  }

  /** Idempotent whenever the result is a valid digest. */
  lemma IdempotentOnValid(imageId: string)
    requires ValidDigest(Normalise(imageId))
    ensures Normalise(Normalise(imageId)) == Normalise(imageId)
  {
    ValidIsFixed(Normalise(imageId));
  }

  lemma {:induction false} StripBeforeAt(t: string, rest: string, prefixes: seq<string>)
    requires '@' !in t && forall i :: 0 <= i < |prefixes| ==> '@' !in prefixes[i]
    ensures Strip(t + "@" + rest, prefixes) == Strip(t, prefixes) + "@" + rest
    ensures '@' !in Strip(t, prefixes)
    decreases |prefixes|
  {
    if prefixes != [] {
      var p := prefixes[0];
      var whole := t + "@" + rest;
      assert whole[|t|] == '@';
      if p <= whole {
        assert forall i :: 0 <= i < |p| ==> whole[i] == p[i] && whole[i] != '@';
        assert |p| <= |t|;
        assert p <= t;
        assert whole[|p|..] == t[|p|..] + "@" + rest;
      } else {
        assert !(p <= t);
      }
      StripBeforeAt(TrimPrefix(t, p), rest, prefixes[1..]);
    }
  }

  /** What follows the first at sign of a reference is all that counts of it. */
  lemma ReferenceYieldsRest(t: string, rest: string)
    requires '@' !in t
    ensures Normalise(t + "@" + rest) == if ':' in rest then Lower(rest) else "sha256:" + rest
  {
    StripBeforeAt(t, rest, RUNTIME_PREFIXES);
    AfterFirstSplits(Strip(t, RUNTIME_PREFIXES), '@', rest);
  }

  /** A valid digest is read out of any image reference that ends in it. */
  lemma ReferenceYieldsDigest(t: string, d: string)
    requires '@' !in t && ValidDigest(d)
    ensures Normalise(t + "@" + d) == d
  {
    ReferenceYieldsRest(t, d);
    ValidDigestShape(d);
  }

  /** A runtime prefix is taken off what is no reference. */
  lemma RuntimePrefixYieldsRest(p: string, rest: string)
    requires p == "docker://" || p == "containerd://" || p == "cri-o://" || p == "docker-pullable://"
    requires '@' !in rest && !HasRuntimePrefix(rest)
    ensures Normalise(p + rest) == if ':' in rest then Lower(rest) else "sha256:" + rest
  {
    var i := if p == "docker://" then 0 else if p == "containerd://" then 1 else if p == "cri-o://" then 2 else 3;
    assert p == RUNTIME_PREFIXES[i];
    var s := p + rest;
    assert s[0] == p[0] && s[1] == p[1] && s[6] == p[6];
    StripOne(s, rest, i, RUNTIME_PREFIXES);
  }

  /** A valid digest is read out of any runtime prefix put before it. */
  lemma RuntimePrefixYieldsDigest(p: string, d: string)
    requires p == "docker://" || p == "containerd://" || p == "cri-o://" || p == "docker-pullable://"
    requires ValidDigest(d)
    ensures Normalise(p + d) == d
  {
    ValidDigestShape(d);
    StrippedIff(d);
    RuntimePrefixYieldsRest(p, d);
  }

  /** The one prefix that matches is taken off, the others do not interfere. */
  lemma {:induction false} StripOne(s: string, d: string, i: nat, prefixes: seq<string>)
    requires i < |prefixes| && s == prefixes[i] + d
    requires forall j :: 0 <= j < i ==> !(prefixes[j] <= s)
    requires forall j :: 0 <= j < |prefixes| ==> prefixes[j] != "" && !(prefixes[j] <= d)
    ensures Strip(s, prefixes) == d
    decreases |prefixes|
  {
    var rest := prefixes[1..];
    assert forall j :: 0 <= j < |rest| ==> rest[j] == prefixes[j + 1];
    if i == 0 {
      assert s[|prefixes[0]|..] == d;
      StripKeeps(d, rest);
    } else {
      StripOne(s, d, i - 1, rest);
    }
  }
}
