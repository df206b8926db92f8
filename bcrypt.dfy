/** Password hashing as the handlers use it: `bcrypt.hash(password, 10)`
    and `bcrypt.compare(password, hash)`. A digest is modelled by the salt
    it was made with and the password it commits to; the salt stands for
    bcrypt's randomness and is a parameter of every hashing call.

    Bcrypt keys its cipher with the password followed by a NUL, read
    cyclically until the 72 bytes of the key schedule are filled. Two
    passwords that give the same 72 bytes match the same digests: anything
    past the 72nd byte is ignored, and a password with an embedded NUL can
    collide with a shorter one ("a" and "a\0a" both give "a\0a\0..."). The
    model counts characters where bcrypt counts UTF-8 bytes. */
module Bcrypt {

  /** The work factor both versions pass to `bcrypt.hash`. */
  const Rounds: nat := 10

  /** The length of the key schedule bcrypt fills from the password. */
  const MaxKeyLength: nat := 72

  datatype Digest = Digest(rounds: nat, salt: nat, committed: string)

  /** The first n characters of k repeated without end. */
  function Cycle(k: string, n: nat): (r: string)
    requires |k| >= 1
    ensures |r| == n
    ensures forall i :: 0 <= i < n ==> r[i] == k[i % |k|]
  {
    seq(n, i requires 0 <= i < n => k[i % |k|])
  }

  /** The 72 characters bcrypt's key schedule is filled with. */
  function Key(password: string): (k: string)
    ensures |k| == MaxKeyLength
    ensures forall i :: 0 <= i < MaxKeyLength ==> k[i] == (password + ['\0'])[i % (|password| + 1)]
  {
    Cycle(password + ['\0'], MaxKeyLength)
  }

  /** `bcrypt.hash(password, 10)` with the salt it happened to draw. */
  function Hash(password: string, salt: nat): (d: Digest)
    ensures Matches(password, d)
    ensures d.rounds == Rounds
  {
    Digest(Rounds, salt, password)
  }

  /** `bcrypt.compare(password, d)`: the password's key is the key the
      digest was made from. */
  predicate Matches(password: string, d: Digest) {
    Key(password) == Key(d.committed)
  }

  /** The key agrees with the password at each of its first 72 places,
      and holds a NUL right after a shorter password. */
  lemma KeyAt(password: string, i: int)
    ensures 0 <= i < |password| && i < MaxKeyLength ==> Key(password)[i] == password[i]
    ensures i == |password| < MaxKeyLength ==> Key(password)[i] == '\0'
  {
    if 0 <= i <= |password| && i < MaxKeyLength {
      assert i % (|password| + 1) == i;
    }
  }

  /** A password no longer than the key schedule and free of NUL is
      determined by its key. */
  lemma {:induction false} KeyDeterminesPassword(a: string, b: string)
    requires |a| <= MaxKeyLength && |b| <= MaxKeyLength
    requires '\0' !in a && '\0' !in b
    requires Key(a) == Key(b)
    ensures a == b
  {
    if |a| < |b| {
      KeyAt(a, |a|);
      KeyAt(b, |a|);
      assert false;
    } else if |b| < |a| {
      KeyAt(b, |b|);
      KeyAt(a, |b|);
      assert false;
    } else {
      forall i | 0 <= i < |a| ensures a[i] == b[i] {
        KeyAt(a, i);
        KeyAt(b, i);
      }
    }
  }

  /** A digest matches exactly the passwords with the key of the one it was
      made from, whatever the salt; for NUL-free passwords of at most 72
      characters that is the password itself. Two hashes of one password
      differ yet both match it. */
  lemma OnlyItsPasswordMatches(password: string, other: string, salt: nat, salt': nat)
    ensures Matches(other, Hash(password, salt)) <==> Key(other) == Key(password)
    ensures |password| <= MaxKeyLength && |other| <= MaxKeyLength && '\0' !in password && '\0' !in other ==>
      (Matches(other, Hash(password, salt)) <==> other == password)
    ensures Matches(password, Hash(password, salt'))
    ensures salt != salt' ==> Hash(password, salt) != Hash(password, salt')
  {
    if |password| <= MaxKeyLength && |other| <= MaxKeyLength && '\0' !in password && '\0' !in other
       && Key(other) == Key(password) {
      KeyDeterminesPassword(other, password);
    }
  }

  /** Anything appended to a password of 72 characters or more is ignored:
      the extended password matches the digest of the original. */
  lemma LongPasswordsCollide(password: string, extra: string, salt: nat)
    requires |password| >= MaxKeyLength
    ensures Matches(password + extra, Hash(password, salt))
  {
    forall i | 0 <= i < MaxKeyLength ensures Key(password + extra)[i] == Key(password)[i] {
      KeyAt(password + extra, i);
      KeyAt(password, i);
    }
  }

  /** The terminating NUL is part of the key: "a" and "a\0a" both fill the
      schedule with "a\0a\0...", so each matches the other's digest. */
  lemma EmbeddedNulCollides(salt: nat)
    ensures Matches("a\0a", Hash("a", salt))
    ensures Matches("a", Hash("a\0a", salt))
  {
    var short, long := Key("a"), Key("a\0a");
    forall i | 0 <= i < MaxKeyLength ensures short[i] == long[i] {
      ModFourModTwo(i);
    }
  }

  lemma ModFourModTwo(i: nat)
    ensures (i % 4) % 2 == i % 2
  {
    var q := i / 4;
    assert i == 4 * q + i % 4;
    assert i % 2 == (2 * (2 * q) + i % 4) % 2 == (i % 4) % 2;
  }
}
