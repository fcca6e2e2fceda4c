# SkypeBuilder, modelled in Dafny

Skype4J's `SkypeBuilder` is the configuration object that stands in front of
the library's network clients. A caller names a user, then chains calls on
the builder:

- it subscribes to resources, either the four well-known ones or any path;
- it adds error handlers, in order;
- it may set a custom logger;
- it may pick a group chat to join as a guest. The chat id must start with `19:`.

A final `buildWithPassword` or `buildWithHash` then decides what to construct.
With no resources it fails. With a credential token it builds a full client.
Without a token but with a chat it builds a guest client. Otherwise it fails.
The token is derived from the username and the password. It is the base64
text of the MD5 digest of the UTF-8 bytes of
`lower(username) + "\nskyper\n" + password`.

The project has five modules:

- `Wrappers` (`wrappers.dfy`): `Option` for Java's `null`, and `Result` and
  `Outcome` for calls that may throw.
- `Utf8` (`utf8.dfy`): the UTF-8 encoding of RFC 3629. It comes with a strict
  decoder, used to prove that the encoding is injective.
- `Base64` (`base64.dfy`): base64 with the standard alphabet and padding, as in
  section 4 of RFC 4648. It comes with a strict decoder, used to prove that the
  encoding is injective. The encoder's length and padding lemmas show that a
  16-byte digest gives a 24-character token ending in `==`.
- `Credentials` (`credentials.dfy`): ASCII lower-casing, the digest input, and
  `PasswordToHash`. MD5 is a parameter `md5: Bytes -> Digest`, where a
  `Digest` is any 16-byte sequence. So every property proved here holds
  whatever the digest function computes.
- `Skype` (`skype_builder.dfy`): the class `SkypeBuilder`. Its fields are the
  source's fields. Its `With…` methods update them in place under
  `modifies this`. `BuildWithHash` and `BuildWithPassword` are functions that
  read the builder. The two client constructors are the two variants of
  `Client` and hold their arguments. An `IllegalArgumentException` is an
  `InvalidArgument` error carrying the source's message.

The `Logger` and the error `Handler` are type parameters. The builder only
passes them through.

## Model

| member | source | states |
|---|---|---|
| `Skype.SkypeBuilder.constructor` | src/main/java/com/samczsun/skype4j/SkypeBuilder.java:35-49 | a new builder keeps the given username; it has no resources, no handlers, no logger and no chat, and the chat invariant `Valid()` holds |
| `Skype.SkypeBuilder.WithAllResources` | src/main/java/com/samczsun/skype4j/SkypeBuilder.java:56-59 | the resources become the old set plus exactly the four well-known paths; all other fields stay as they were |
| `Skype.SkypeBuilder.WithResource` | src/main/java/com/samczsun/skype4j/SkypeBuilder.java:67-70 | the resources become the old set plus the given path; all other fields stay as they were |
| `Skype.SkypeBuilder.WithLogger` | src/main/java/com/samczsun/skype4j/SkypeBuilder.java:78-81 | the custom logger becomes the given one, replacing any earlier one; all other fields stay as they were |
| `Skype.SkypeBuilder.WithExceptionHandler` | src/main/java/com/samczsun/skype4j/SkypeBuilder.java:89-92 | the handler is appended after the existing handlers, which keep their order; all other fields stay as they were |
| `Skype.SkypeBuilder.WithChat` | src/main/java/com/samczsun/skype4j/SkypeBuilder.java:100-104 | the call fails with "Invalid chat id" exactly when the id lacks the `19:` prefix, and then leaves the chat unchanged; otherwise the chat becomes the id; the other fields never change, and the chat invariant is preserved |
| `Skype.SkypeBuilder.BuildWithHash` | src/main/java/com/samczsun/skype4j/SkypeBuilder.java:120-131 | the build succeeds exactly when there are resources and either a token or a chat; with no resources it fails with "No resources selected", otherwise with "No chat specified"; a full client is built exactly when a token is given, and it carries that token; a guest client carries the chosen chat id, which is well formed under the invariant; both carry the builder's username, resources, logger and handlers |
| `Skype.SkypeBuilder.BuildWithPassword` | src/main/java/com/samczsun/skype4j/SkypeBuilder.java:111-118 | with no password the result is `BuildWithHash(None)`; with a password it is `BuildWithHash` of the token derived from the username and that password; so with resources selected, a password always yields a full client with a 24-character token |
| `Skype.ChatIgnoredWithHash` | src/main/java/com/samczsun/skype4j/SkypeBuilder.java:94-95 | when a token is given, the selected chat makes no difference: two builders that differ only in their chat build equal clients |
| `Skype.DuplicateResource` | src/main/java/com/samczsun/skype4j/SkypeBuilder.java:67-70 | adding the same resource twice to a new builder leaves exactly one subscription |
| `Skype.AllResourcesTwice` | src/main/java/com/samczsun/skype4j/SkypeBuilder.java:56-59 | `withAllResources` is idempotent: after one call and after two calls the resources are exactly the four well-known paths |
| `Skype.HandlerOrder` | src/main/java/com/samczsun/skype4j/SkypeBuilder.java:89-92 | handlers added one after another are kept in the order they were added |
| `Skype.ChatValidation` | src/main/java/com/samczsun/skype4j/SkypeBuilder.java:100-104 | "19:abc" is accepted; "abc" is then rejected at once with "Invalid chat id", and the accepted chat stays selected |
| `Skype.Dispatch` | src/main/java/com/samczsun/skype4j/SkypeBuilder.java:120-131 | a builder with no resources fails even with a token; with the well-known resources and no token or chat it fails with "No chat specified"; with a chat it builds a guest client for that chat; with a token it builds a full client even though a chat is selected |
| `Credentials.PasswordToHash` | src/main/java/com/samczsun/skype4j/SkypeBuilder.java:133-141 | the token is 24 characters long, ends in `==`, and uses only base64 characters, whatever the username and password |
| `Credentials.DigestInput` | src/main/java/com/samczsun/skype4j/SkypeBuilder.java:136 | the hashed text is as long as the username, the tag `skyper`, the two newlines and the password together |
| `Credentials.LowerChar` | src/main/java/com/samczsun/skype4j/SkypeBuilder.java:136 | the lower-cased character is never an upper-case letter; an upper-case letter is shifted by 32 to its lower-case partner, and every other character is left as it is |
| `Credentials.ToLower` | src/main/java/com/samczsun/skype4j/SkypeBuilder.java:136 | the lower-cased username has the username's length, holds no upper-case letter, and differs from the username only where the username has an upper-case letter, which becomes its lower-case partner |
| `Credentials.ToLowerIdempotent` | src/main/java/com/samczsun/skype4j/SkypeBuilder.java:136 | lower-casing twice gives the same result as lower-casing once |
| `Credentials.ToLowerEqualIff` | src/main/java/com/samczsun/skype4j/SkypeBuilder.java:136 | two usernames lower-case to the same string if and only if they are equal up to the case of their letters |
| `Credentials.HashIgnoresUsernameCase` | src/main/java/com/samczsun/skype4j/SkypeBuilder.java:133-137 | usernames that differ only in case give the same token for the same password |
| `Credentials.HashOfLoweredUsername` | src/main/java/com/samczsun/skype4j/SkypeBuilder.java:133-137 | deriving from the lower-cased username gives the same token as deriving from the username as given |
| `Credentials.AliceExample` | src/main/java/com/samczsun/skype4j/SkypeBuilder.java:133-137 | "Alice" and "alice" give the same token for every password |
| `Credentials.ToLowerNewlines` | src/main/java/com/samczsun/skype4j/SkypeBuilder.java:136 | lower-casing neither adds nor removes a newline |
| `Credentials.SplitAtNewline` | src/main/java/com/samczsun/skype4j/SkypeBuilder.java:136 | a newline-free part, a newline and a rest can be split back apart uniquely |
| `Credentials.DigestInputInjective` | src/main/java/com/samczsun/skype4j/SkypeBuilder.java:136 | for usernames without a newline, two digest inputs are equal if and only if the lower-cased usernames are equal and the passwords are equal |
| `Credentials.DigestBytesInjective` | src/main/java/com/samczsun/skype4j/SkypeBuilder.java:136 | for usernames without a newline, the hashed bytes are equal if and only if the lower-cased usernames are equal and the passwords are equal |
| `Credentials.NewlineUsernameCollision` | src/main/java/com/samczsun/skype4j/SkypeBuilder.java:136 | a username may contain the separator: username `a\nskyper\nb` with password `c` and username `a` with password `b\nskyper\nc` give the same digest input although the lower-cased usernames differ |
| `Credentials.DigestBytes` | src/main/java/com/samczsun/skype4j/SkypeBuilder.java:136 | the hashed bytes are the UTF-8 bytes of the lower-cased username, the eight bytes of `\nskyper\n`, then the UTF-8 bytes of the password |
| `Credentials.HashCollisionIsDigestCollision` | src/main/java/com/samczsun/skype4j/SkypeBuilder.java:133-137 | two derivations give the same token if and only if the digest function maps their encoded inputs to the same digest, so base64 adds no collisions; and the encoded inputs are the same bytes if and only if the digest inputs are the same text, so UTF-8 adds none either |
| `Credentials.BobDigestInput` | src/main/java/com/samczsun/skype4j/SkypeBuilder.java:136 | for username "bob" and password "pw", the hashed text is `bob\nskyper\npw` |
| `Credentials.BobExample` | src/main/java/com/samczsun/skype4j/SkypeBuilder.java:136 | for username "bob" and password "pw", the hashed bytes are the 13 ASCII codes of `bob\nskyper\npw` |
| `Credentials.AsciiBytes` | src/main/java/com/samczsun/skype4j/SkypeBuilder.java:136 | an ASCII string encodes to the given list of its character codes |
| `Utf8.Width` | src/main/java/com/samczsun/skype4j/SkypeBuilder.java:136 | every character takes one to four bytes, and exactly one byte when it is ASCII |
| `Utf8.EncodeChar` | src/main/java/com/samczsun/skype4j/SkypeBuilder.java:136 | a character's encoding has its width, starts with a byte that is not a continuation byte, and the rest are continuation bytes |
| `Utf8.Encode` | src/main/java/com/samczsun/skype4j/SkypeBuilder.java:136 | the encoding is at least as long as the string, and it is empty exactly when the string is empty |
| `Utf8.DecodeChar` | src/main/java/com/samczsun/skype4j/SkypeBuilder.java:136 | a decoded character consumes between one byte and the whole input, and exactly as many bytes as its width |
| `Utf8.DecodeEncodeChar` | src/main/java/com/samczsun/skype4j/SkypeBuilder.java:136 | decoding the encoding of a character, whatever follows it, gives back the character and consumes exactly its width |
| `Utf8.DecodeEncode` | src/main/java/com/samczsun/skype4j/SkypeBuilder.java:136 | decoding the UTF-8 encoding of any string gives back that string |
| `Utf8.EncodeInjective` | src/main/java/com/samczsun/skype4j/SkypeBuilder.java:136 | two strings have the same encoding if and only if they are equal |
| `Utf8.EncodeAppend` | src/main/java/com/samczsun/skype4j/SkypeBuilder.java:136 | encoding a concatenation gives the concatenation of the encodings |
| `Utf8.EncodeAscii` | src/main/java/com/samczsun/skype4j/SkypeBuilder.java:136 | an ASCII string encodes to one byte per character, each byte being that character's code |
| `Utf8.TwoByteVector` | src/main/java/com/samczsun/skype4j/SkypeBuilder.java:136 | `é` (U+00E9) encodes to the bytes C3 A9 |
| `Utf8.ThreeByteVector` | src/main/java/com/samczsun/skype4j/SkypeBuilder.java:136 | the euro sign (U+20AC) encodes to the bytes E2 82 AC |
| `Utf8.FourByteVector` | src/main/java/com/samczsun/skype4j/SkypeBuilder.java:136 | U+1F600 encodes to the bytes F0 9F 98 80 |
| `Base64.Digit` | src/main/java/com/samczsun/skype4j/SkypeBuilder.java:137 | no six-bit value is written as the padding character |
| `Base64.DigitValue` | src/main/java/com/samczsun/skype4j/SkypeBuilder.java:137 | a character read as a six-bit value is the character written for that value |
| `Base64.CharSymbol` | src/main/java/com/samczsun/skype4j/SkypeBuilder.java:137 | a character read as a symbol (a value or the padding) is the character written for that symbol |
| `Base64.GroupSymbols` | src/main/java/com/samczsun/skype4j/SkypeBuilder.java:137 | one group of one to three bytes becomes exactly four symbols |
| `Base64.Symbols` | src/main/java/com/samczsun/skype4j/SkypeBuilder.java:137 | `n` bytes become `4 * ceil(n / 3)` symbols |
| `Base64.Encode` | src/main/java/com/samczsun/skype4j/SkypeBuilder.java:137 | `n` bytes become `4 * ceil(n / 3)` characters |
| `Base64.ReadSymbols` | src/main/java/com/samczsun/skype4j/SkypeBuilder.java:137 | reading a text as symbols, when every character is readable, gives one symbol per character |
| `Base64.UngroupSymbols` | src/main/java/com/samczsun/skype4j/SkypeBuilder.java:137 | a group of four symbols that reads back gives one to three bytes, and fewer than three only in the last group |
| `Base64.CharSymbolOfSymbolChar` | src/main/java/com/samczsun/skype4j/SkypeBuilder.java:137 | reading back the character written for a symbol gives that symbol |
| `Base64.ReadSymbolsOfEncode` | src/main/java/com/samczsun/skype4j/SkypeBuilder.java:137 | every character of an encoding is an alphabet character or `=`, and reading the encoding back gives the symbols it was written from |
| `Base64.UngroupOne` | src/main/java/com/samczsun/skype4j/SkypeBuilder.java:137 | a final single byte, written `xx==`, reads back as itself |
| `Base64.UngroupTwo` | src/main/java/com/samczsun/skype4j/SkypeBuilder.java:137 | a final pair of bytes, written `xxx=`, reads back as itself |
| `Base64.UngroupThree` | src/main/java/com/samczsun/skype4j/SkypeBuilder.java:137 | a full group of three bytes, written as four alphabet characters, reads back as itself wherever it stands |
| `Base64.UngroupGroup` | src/main/java/com/samczsun/skype4j/SkypeBuilder.java:137 | the symbols of any group read back as the group, a short group being allowed last |
| `Base64.UnsymbolsAppend` | src/main/java/com/samczsun/skype4j/SkypeBuilder.java:137 | a group followed by more symbols reads back as the group's bytes followed by what the rest reads back as |
| `Base64.UnsymbolsOfSymbols` | src/main/java/com/samczsun/skype4j/SkypeBuilder.java:137 | reading back the symbols of any byte sequence gives that sequence |
| `Base64.DecodeEncode` | src/main/java/com/samczsun/skype4j/SkypeBuilder.java:137 | decoding the base64 encoding of any byte sequence gives back that sequence |
| `Base64.EncodeInjective` | src/main/java/com/samczsun/skype4j/SkypeBuilder.java:137 | two byte sequences have the same encoding if and only if they are equal |
| `Base64.SymbolsEndInPads` | src/main/java/com/samczsun/skype4j/SkypeBuilder.java:137 | the symbols of a sequence of `3k + 1` bytes end in two paddings |
| `Base64.EncodeSixteen` | src/main/java/com/samczsun/skype4j/SkypeBuilder.java:137 | a 16-byte MD5 digest encodes to 24 characters ending in `==` |
| `Base64.OneByteVector` | src/main/java/com/samczsun/skype4j/SkypeBuilder.java:137 | the RFC 4648 test vector: `f` encodes to `Zg==` |
| `Base64.TwoBytesVector` | src/main/java/com/samczsun/skype4j/SkypeBuilder.java:137 | the RFC 4648 test vector: `fo` encodes to `Zm8=` |
| `Base64.ThreeBytesVector` | src/main/java/com/samczsun/skype4j/SkypeBuilder.java:137 | the RFC 4648 test vector: `foo` encodes to `Zm9v` |
| `Base64.SixBytesVector` | src/main/java/com/samczsun/skype4j/SkypeBuilder.java:137 | the RFC 4648 test vector: `foobar` encodes to `Zm9vYmFy` |

## Left out

- MD5 (line 135) is the parameter `md5` and is not computed. Its output is only required to be 16 bytes. Every property above holds for any such function.
- The `NoSuchAlgorithmException` handler (lines 138-139) is not modelled. It turns a missing MD5 implementation into a `RuntimeException`, and MD5 is always available.
- `Credentials.LowerChar`: lower-cases the ASCII letters `A`-`Z` only. Java's `String.toLowerCase()` follows the default locale and full Unicode case mapping. For example, in a Turkish locale it maps `I` to a dotless `ı`. Those mappings are not modelled.
- `Credentials.ToLower`: lower-cases a string with `LowerChar`, so it inherits the same ASCII-only limitation; locale-dependent and non-ASCII case mappings of `String.toLowerCase()` are not modelled.
- Java strings are UTF-16 and may hold unpaired surrogates, which `getBytes(UTF_8)` writes as `?`. A Dafny `char` is a Unicode scalar value, so such strings cannot occur in the model.
- `FullClient` and `GuestClient` (lines 125 and 127) are the network clients. They are only the `Client` variants `Full` and `Guest`, holding the constructor arguments.
- Loggers and error handlers are type parameters. What they do is not modelled.
- The builder hands its live `resources` set and `errorHandlers` list to the client without copying them. So later mutations of the builder are visible to the client. The model's `seq` and `set` values are immutable, so this aliasing is not captured.
- Null arguments are not modelled. `withChat(null)` throws a `NullPointerException`, and a `null` resource or handler is stored as it is. A `null` username passed to the constructor is stored as it is; `buildWithHash` hands it to the client unchanged, while `passwordToHash` calls `username.toLowerCase()` (line 136) and throws a `NullPointerException`, so `buildWithPassword` with a non-null password throws one too, before any resource check. Only a `null` password passed directly to the public `passwordToHash` is formatted as `"null"` by `String.format`.
- The mutators in Java return the builder itself, for chaining. The Dafny methods return nothing, except `WithChat`, which returns its outcome.
