/** The stored digest of an API key's secret: its layout, when this build can
    check it, and when one is made (gpustack/security.py:84-129, 175-226).
    The hash is a parameter; nothing is used of it but that different secrets
    hash differently under one salt and that it prints without a dollar sign. */
module SecretDigest {
  import opened Lists
  import opened Text

  type Hash = (string, string) -> string

  /** A salt as the generator makes them: not empty, hexadecimal. */
  type Salt = s: string | s != "" && '$' !in s witness "0"

  const ALGORITHM := "sha256"

  ghost predicate GoodHash(hash: Hash) {
    && (forall salt, a, b :: hash(salt, a) == hash(salt, b) ==> a == b)
    && (forall salt, a :: hash(salt, a) != "" && '$' !in hash(salt, a))
  }

  datatype Parsed = Parsed(salt: string, hash: string)

  /** A value laid out `algorithm$salt$hash` with the known algorithm. */
  function Parse(digest: Option<string>): Option<Parsed> {
    if digest.None? || digest.value == "" then None else
    var parts := Split(digest.value, '$');
    if |parts| != 3 || parts[0] != ALGORITHM || parts[1] == "" || parts[2] == "" then None
    else Some(Parsed(parts[1], parts[2]))
  }

  predicate Usable(digest: Option<string>) { Parse(digest).Some? }

  predicate Verify(hash: Hash, digest: Option<string>, secret: string) {
    Usable(digest) && hash(Parse(digest).value.salt, secret) == Parse(digest).value.hash
  }

  predicate IsHex(c: char) { '0' <= c <= '9' || 'a' <= c <= 'f' }

  /** The shape of a generated secret: 32 hexadecimal characters; the pattern's
      end anchor also admits one line break after them. */
  predicate IsGenerated(secret: string) {
    && |secret| >= 32 && (forall i :: 0 <= i < 32 ==> IsHex(secret[i]))
    && (|secret| == 32 || secret[32..] == "\n")
  }

  /** Exactly the secrets the generator prints, and those with a line break
      after. */
  lemma GeneratedIff(secret: string)
    ensures IsGenerated(secret) <==>
      exists body: string :: |body| == 32 && (forall c :: c in body ==> c in "0123456789abcdef") &&
        (secret == body || secret == body + "\n")
  {
    if |secret| >= 32 {
      var body := secret[..32];
      assert secret == body + secret[32..];
      forall c: char ensures IsHex(c) <==> c in "0123456789abcdef" {
        HexDigits(c);
      }
      if IsGenerated(secret) {
        assert forall i :: 0 <= i < 32 ==> body[i] == secret[i];
        assert |secret| == 32 ==> secret == body;
      }
      forall b: string | |b| == 32 && (forall c :: c in b ==> c in "0123456789abcdef") &&
        (secret == b || secret == b + "\n")
        ensures IsGenerated(secret)
      {
        assert forall i :: 0 <= i < 32 ==> secret[i] == b[i] && b[i] in b;
      }
    }
  }

  lemma HexDigits(c: char)
    ensures IsHex(c) <==> c in "0123456789abcdef"
  {
    var digits := "0123456789abcdef";
    if '0' <= c <= '9' { assert digits[c as int - '0' as int] == c; }
    if 'a' <= c <= 'f' { assert digits[c as int - 'a' as int + 10] == c; }
  }

  predicate Eligible(secret: string, isCustom: bool, accessKey: string, allowCustom: bool) {
    accessKey != "" && if isCustom then allowCustom else IsGenerated(secret)
  }

  function NewDigest(hash: Hash, salt: Salt, secret: string): string {
    ALGORITHM + "$" + (salt + "$" + hash(salt, secret))
  }

  /** A digest just made is usable and verifies its own secret and no other: the
      fast check and the slow one agree on it. */
  lemma NewDigestVerifies(hash: Hash, salt: Salt, secret: string, presented: string)
    requires GoodHash(hash)
    ensures Usable(Some(NewDigest(hash, salt, secret)))
    ensures Verify(hash, Some(NewDigest(hash, salt, secret)), presented) <==> presented == secret
  {
    var h := hash(salt, secret);
    SplitFirst(ALGORITHM, '$', salt + "$" + h);
    SplitFirst(salt, '$', h);
    SplitOne(h, '$');
    var parts := Split(NewDigest(hash, salt, secret), '$');
    assert parts == [ALGORITHM] + ([salt] + [h]);
    assert parts[0] == ALGORITHM && parts[1] == salt && parts[2] == h;
  }

  /** Usable means exactly: laid out as this build writes digests, with a salt
      and a hash free of dollar signs. */
  lemma UsableIff(digest: string)
    ensures Usable(Some(digest)) <==>
      exists salt: string, h: string :: salt != "" && h != "" && '$' !in salt && '$' !in h &&
        digest == ALGORITHM + "$" + (salt + "$" + h)
  {
    var parts := Split(digest, '$');
    if Usable(Some(digest)) {
      JoinOfSplit(digest, '$');
      SplitPlain(digest, '$');
      assert '$' !in parts[1] && '$' !in parts[2];
      assert parts[1..][1..] == [parts[2]] && parts[1..][0] == parts[1];
      assert JoinWith(parts[1..], '$') == parts[1] + "$" + parts[2];
      assert digest == ALGORITHM + "$" + (parts[1] + "$" + parts[2]);
    }
    forall salt: string, h: string | salt != "" && h != "" && '$' !in salt && '$' !in h &&
      digest == ALGORITHM + "$" + (salt + "$" + h)
      ensures Usable(Some(digest))
    {
      SplitFirst(ALGORITHM, '$', salt + "$" + h);
      SplitFirst(salt, '$', h);
      SplitOne(h, '$');
      assert parts == [ALGORITHM] + ([salt] + [h]);
      assert parts[0] == ALGORITHM && parts[1] == salt && parts[2] == h;
    }
  }

  /** A secret verifies against a stored value exactly if the value is laid out as
      known and holds, after a salt, the hash of the secret under that salt. */
  lemma VerifyIff(hash: Hash, digest: string, secret: string)
    ensures Verify(hash, Some(digest), secret) <==>
      exists salt: string :: salt != "" && '$' !in salt && hash(salt, secret) != "" && '$' !in hash(salt, secret) &&
        digest == "sha256" + "$" + (salt + "$" + hash(salt, secret))
  {
    var parts := Split(digest, '$');
    if Verify(hash, Some(digest), secret) {
      JoinOfSplit(digest, '$');
      SplitPlain(digest, '$');
      var salt := parts[1];
      assert '$' !in salt && '$' !in parts[2] && parts[2] == hash(salt, secret);
      assert parts[1..][1..] == [parts[2]] && parts[1..][0] == salt;
      assert JoinWith(parts[1..], '$') == salt + "$" + parts[2];
      assert digest == "sha256" + "$" + (salt + "$" + hash(salt, secret));
    }
    forall salt: string | salt != "" && '$' !in salt && hash(salt, secret) != "" && '$' !in hash(salt, secret) &&
      digest == "sha256" + "$" + (salt + "$" + hash(salt, secret))
      ensures Verify(hash, Some(digest), secret)
    {
      var h := hash(salt, secret);
      SplitFirst("sha256", '$', salt + "$" + h);
      SplitFirst(salt, '$', h);
      SplitOne(h, '$');
      assert parts == ["sha256"] + ([salt] + [h]);
      assert parts[0] == "sha256" && parts[1] == salt && parts[2] == h;
    }
  }
}
