/** The login credential `SkypeBuilder.passwordToHash` derives from a
    username and a password: the base64 text of the MD5 digest of the UTF-8
    bytes of `lower(username) + "\nskyper\n" + password`.

    MD5 itself is not modelled: every function here that needs it takes it
    as the parameter `md5`, so that what is proved holds for any digest
    function with a 16-byte output. */
module Credentials {
  import opened Utf8
  import Base64

  /** The fixed tag the service expects between the username and the password. */
  const ServiceTag: string := "skyper"

  /** An MD5 digest: 128 bits. */
  type Digest = s: Bytes | |s| == 16
    witness [0, 0, 0, 0, 0, 0, 0, 0, 0, 0, 0, 0, 0, 0, 0, 0]

  predicate IsUpper(c: char) {
    'A' <= c <= 'Z'
  }

  /** Lower-casing of one character, for the ASCII letters. */
  function LowerChar(c: char): (r: char)
    ensures !IsUpper(r)
    ensures IsUpper(c) ==> r as int == c as int + 32
    ensures !IsUpper(c) ==> r == c
  {
    if IsUpper(c) then (c as int + 32) as char else c
  }

  /** Lower-casing of a string, character by character. */
  function ToLower(s: string): (r: string)
    ensures |r| == |s|
    ensures forall i :: 0 <= i < |r| ==> !IsUpper(r[i])
    ensures forall i :: 0 <= i < |s| && IsUpper(s[i]) ==> r[i] as int == s[i] as int + 32
    ensures forall i :: 0 <= i < |s| && !IsUpper(s[i]) ==> r[i] == s[i]
  {
    seq(|s|, i requires 0 <= i < |s| => LowerChar(s[i]))
  }

  /** `x` and `y` are the same letter up to case: equal, or an upper-case
      ASCII letter and its lower-case partner. */
  predicate SameIgnoringCase(x: char, y: char) {
    x == y
    || (IsUpper(x) && y as int == x as int + 32)
    || (IsUpper(y) && x as int == y as int + 32)
  }

  /** `a` and `b` spell the same word up to the case of their letters. */
  predicate EqualIgnoringCase(a: string, b: string) {
    |a| == |b| && forall i :: 0 <= i < |a| ==> SameIgnoringCase(a[i], b[i])
  }

  /** The text that is hashed: lower-cased username, newline, service tag,
      newline, password (the source's format string `"%s\nskyper\n%s"`). */
  function DigestInput(username: string, password: string): (r: string)
    ensures |r| == |username| + |ServiceTag| + 2 + |password|
  {
    ToLower(username) + "\n" + ServiceTag + "\n" + password
  }

  /** The credential token sent in place of the password. */
  function PasswordToHash(username: string, password: string, md5: Bytes -> Digest): (r: string)
    ensures |r| == 24 && r[22..] == "=="
    ensures forall i :: 0 <= i < |r| ==> Base64.IsBase64Char(r[i])
  {
    var digest := md5(Utf8.Encode(DigestInput(username, password)));
    Base64.EncodeSixteen(digest);
    Base64.ReadSymbolsOfEncode(digest);
    Base64.Encode(digest)
  }

  /** Lower-casing twice is lower-casing once. */
  lemma ToLowerIdempotent(s: string)
    ensures ToLower(ToLower(s)) == ToLower(s)
  {
  }

  /** Two strings lower-case to the same string exactly when they are equal
      up to the case of their letters. */
  lemma ToLowerEqualIff(a: string, b: string)
    ensures ToLower(a) == ToLower(b) <==> EqualIgnoringCase(a, b)
  {
    if ToLower(a) == ToLower(b) {
      forall i | 0 <= i < |a| ensures SameIgnoringCase(a[i], b[i]) {
        assert LowerChar(a[i]) == ToLower(a)[i] == ToLower(b)[i] == LowerChar(b[i]);
      }
    }
    if EqualIgnoringCase(a, b) {
      assert forall i :: 0 <= i < |a| ==> ToLower(a)[i] == ToLower(b)[i];
    }
  }

  /** The token does not depend on the case of the username's letters. */
  lemma HashIgnoresUsernameCase(u1: string, u2: string, password: string, md5: Bytes -> Digest)
    requires EqualIgnoringCase(u1, u2)
    ensures PasswordToHash(u1, password, md5) == PasswordToHash(u2, password, md5)
  {
    ToLowerEqualIff(u1, u2);
    assert DigestInput(u1, password) == DigestInput(u2, password);
  }

  /** Deriving from the lower-cased username gives the same token as
      deriving from the username as given. */
  lemma HashOfLoweredUsername(username: string, password: string, md5: Bytes -> Digest)
    ensures PasswordToHash(ToLower(username), password, md5) == PasswordToHash(username, password, md5)
  {
    ToLowerIdempotent(username);
    assert DigestInput(ToLower(username), password) == DigestInput(username, password);
  }

  /** "Alice" and "alice" give the same token for the same password. */
  lemma AliceExample(password: string, md5: Bytes -> Digest)
    ensures PasswordToHash("Alice", password, md5) == PasswordToHash("alice", password, md5)
  {
    assert EqualIgnoringCase("Alice", "alice");
    HashIgnoresUsernameCase("Alice", "alice", password, md5);
  }

  /** Lower-casing neither adds nor removes newlines. */
  lemma ToLowerNewlines(s: string)
    ensures '\n' in ToLower(s) <==> '\n' in s
  {
    var l := ToLower(s);
    if '\n' in l {
      var i :| 0 <= i < |l| && l[i] == '\n';
      assert s[i] == '\n';
    }
    if '\n' in s {
      var i :| 0 <= i < |s| && s[i] == '\n';
      assert l[i] == '\n';
    }
  }

  /** A string made of a newline-free part, a newline and a rest splits
      back into those two parts. */
  lemma SplitAtNewline(l1: string, r1: string, l2: string, r2: string)
    requires '\n' !in l1 && '\n' !in l2
    requires l1 + "\n" + r1 == l2 + "\n" + r2
    ensures l1 == l2 && r1 == r2
  {
    var d := l1 + "\n" + r1;
    assert d[|l1|] == '\n';
    assert (l2 + "\n" + r2)[|l2|] == '\n';
    assert |l1| == |l2|;
    assert l1 == d[..|l1|] && l2 == d[..|l2|];
    assert r1 == d[|l1| + 1..] && r2 == d[|l2| + 1..];
  }

  /** For usernames without a newline, the digest input determines the
      lower-cased username and the password: the first newline marks where
      the username ends. */
  lemma DigestInputInjective(u1: string, p1: string, u2: string, p2: string)
    requires '\n' !in u1 && '\n' !in u2
    ensures DigestInput(u1, p1) == DigestInput(u2, p2) <==> ToLower(u1) == ToLower(u2) && p1 == p2
  {
    var l1, l2 := ToLower(u1), ToLower(u2);
    var d1, d2 := DigestInput(u1, p1), DigestInput(u2, p2);
    assert d1 == l1 + "\n" + (ServiceTag + "\n" + p1);
    assert d2 == l2 + "\n" + (ServiceTag + "\n" + p2);
    ToLowerNewlines(u1);
    ToLowerNewlines(u2);
    if d1 == d2 {
      SplitAtNewline(l1, ServiceTag + "\n" + p1, l2, ServiceTag + "\n" + p2);
      assert p1 == (ServiceTag + "\n" + p1)[7..];
      assert p2 == (ServiceTag + "\n" + p2)[7..];
    }
  }

  /** Two derivations give the same token exactly when the digest function
      maps their UTF-8 inputs to the same digest, and those inputs are the
      same bytes exactly when the digest inputs are the same text: neither
      the UTF-8 step nor the base64 step adds collisions of its own. */
  lemma HashCollisionIsDigestCollision(u1: string, p1: string, u2: string, p2: string, md5: Bytes -> Digest)
    ensures PasswordToHash(u1, p1, md5) == PasswordToHash(u2, p2, md5)
       <==> md5(Utf8.Encode(DigestInput(u1, p1))) == md5(Utf8.Encode(DigestInput(u2, p2)))
    ensures Utf8.Encode(DigestInput(u1, p1)) == Utf8.Encode(DigestInput(u2, p2))
       <==> DigestInput(u1, p1) == DigestInput(u2, p2)
  {
    Base64.EncodeInjective(md5(Utf8.Encode(DigestInput(u1, p1))), md5(Utf8.Encode(DigestInput(u2, p2))));
    Utf8.EncodeInjective(DigestInput(u1, p1), DigestInput(u2, p2));
  }

  /** For usernames without a newline, the hashed bytes determine the
      lower-cased username and the password. */
  lemma DigestBytesInjective(u1: string, p1: string, u2: string, p2: string)
    requires '\n' !in u1 && '\n' !in u2
    ensures Utf8.Encode(DigestInput(u1, p1)) == Utf8.Encode(DigestInput(u2, p2))
       <==> ToLower(u1) == ToLower(u2) && p1 == p2
  {
    Utf8.EncodeInjective(DigestInput(u1, p1), DigestInput(u2, p2));
    DigestInputInjective(u1, p1, u2, p2);
  }

  /** A username may contain the separator itself, and then two different
      username and password pairs give the same digest input, hence the
      same token whatever the digest function. */
  lemma NewlineUsernameCollision()
    ensures ToLower("a\nskyper\nb") != ToLower("a")
    ensures DigestInput("a\nskyper\nb", "c") == DigestInput("a", "b\nskyper\nc")
  {
    assert ToLower("a\nskyper\nb") == "a\nskyper\nb";
    assert ToLower("a") == "a";
  }

  /** The hashed bytes are the UTF-8 bytes of the lower-cased username, the
      eight ASCII bytes of `\nskyper\n`, then the UTF-8 bytes of the password. */
  lemma DigestBytes(username: string, password: string)
    ensures Utf8.Encode(DigestInput(username, password))
         == Utf8.Encode(ToLower(username)) + [0x0A, 0x73, 0x6B, 0x79, 0x70, 0x65, 0x72, 0x0A] + Utf8.Encode(password)
  {
    var sep := "\n" + ServiceTag + "\n";
    assert DigestInput(username, password) == ToLower(username) + (sep + password);
    Utf8.EncodeAppend(ToLower(username), sep + password);
    Utf8.EncodeAppend(sep, password);
    AsciiBytes(sep, [0x0A, 0x73, 0x6B, 0x79, 0x70, 0x65, 0x72, 0x0A]);
  }

  /** The text hashed for username "bob" and password "pw". */
  lemma BobDigestInput()
    ensures DigestInput("bob", "pw") == "bob\nskyper\npw"
  {
    assert ToLower("bob") == "bob";
  }

  /** The bytes hashed for username "bob" and password "pw". */
  lemma BobExample()
    ensures Utf8.Encode(DigestInput("bob", "pw"))
         == [0x62, 0x6F, 0x62, 0x0A, 0x73, 0x6B, 0x79, 0x70, 0x65, 0x72, 0x0A, 0x70, 0x77]
  {
    BobDigestInput();
    AsciiBytes("bob\nskyper\npw", [0x62, 0x6F, 0x62, 0x0A, 0x73, 0x6B, 0x79, 0x70, 0x65, 0x72, 0x0A, 0x70, 0x77]);
  }

  /** An ASCII string encodes to the list of its character codes. */
  lemma AsciiBytes(s: string, codes: Bytes)
    requires |s| == |codes|
    requires forall i :: 0 <= i < |s| ==> s[i] as int == codes[i] < 0x80
    ensures Utf8.Encode(s) == codes
  {
    Utf8.EncodeAscii(s);
  }
}
