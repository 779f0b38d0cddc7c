/** `ValidateAuthTokenMiddleware` (solution/core/middlewares.py): a request
    carrying an `Authorization` header is refused with 401 unless the last
    space-separated part of the header is 5..300 characters long. */
module Middlewares {
  import opened Common

  const MIN_TOKEN_LENGTH: nat := 5
  const MAX_TOKEN_LENGTH: nat := 300
  const TOKEN_LENGTH_MESSAGE: string := "Token must be between 5 and 300 characters."

  /** The inverse of splitting: the parts glued back with single spaces. */
  function Join(parts: seq<string>): string
    requires |parts| >= 1
  {
    if |parts| == 1 then parts[0] else parts[0] + " " + Join(parts[1..])
  }

  /** Python's `s.split(' ')`: the pieces between single spaces, empty
      pieces included, read one character at a time. */
  function Split(s: string): (parts: seq<string>)
    ensures |parts| >= 1
  {
    if s == [] then [""]
    else
      var rest := Split(s[1..]);
      if s[0] == ' ' then [""] + rest
      else [[s[0]] + rest[0]] + rest[1..]
  }

  /** The parts hold no space, joining them gives the string back, and there
      is more than one part exactly when the string has a space. */
  lemma {:induction false} SplitParts(s: string)
    ensures forall i :: 0 <= i < |Split(s)| ==> ' ' !in Split(s)[i]
    ensures Join(Split(s)) == s
    ensures |Split(s)| == 1 <==> ' ' !in s
  {
    if s != [] {
      var t := s[1..];
      SplitParts(t);
      var rest := Split(t);
      var parts := Split(s);
      assert s == [s[0]] + t;
      if s[0] == ' ' {
        assert parts == [""] + rest;
        assert parts[1..] == rest;
      } else {
        assert parts == [[s[0]] + rest[0]] + rest[1..];
        assert ' ' in s <==> ' ' in t;
        if |rest| > 1 {
          assert parts[1..] == rest[1..];
        }
      }
    }
  }

  /** A space-free piece, a space and the rest split into the piece and the
      parts of the rest. */
  lemma {:induction false} SplitPrefix(a: string, b: string)
    requires ' ' !in a
    ensures Split(a + " " + b) == [a] + Split(b)
  {
    var s := a + " " + b;
    if a == [] {
      assert s[1..] == b;
    } else {
      assert s[1..] == a[1..] + " " + b;
      SplitPrefix(a[1..], b);
      assert [a[0]] + a[1..] == a;
    }
  }

  /** Splitting undoes joining space-free parts. */
  lemma {:induction false} SplitJoin(parts: seq<string>)
    requires |parts| >= 1
    requires forall i :: 0 <= i < |parts| ==> ' ' !in parts[i]
    ensures Split(Join(parts)) == parts
  {
    if |parts| == 1 {
      SplitParts(parts[0]);
    } else {
      SplitJoin(parts[1..]);
      SplitPrefix(parts[0], Join(parts[1..]));
      assert parts == [parts[0]] + parts[1..];
    }
  }

  /** `auth_header.split(' ')[-1]`: a space-free piece of the header, the
      header itself when it has no space. */
  function Token(header: string): (t: string)
    ensures ' ' !in t
    ensures ' ' !in header ==> t == header
  {
    SplitParts(header);
    var parts := Split(header);
    parts[|parts| - 1]
  }

  /** The token of a header is that of the header without its first
      character, unless the header holds no space at all. */
  lemma TokenStep(s: string)
    requires s != []
    ensures ' ' !in s ==> Token(s) == s
    ensures ' ' in s ==> Token(s) == Token(s[1..])
  {
    if ' ' in s {
      var t := s[1..];
      var rest := Split(t);
      var parts := Split(s);
      if s[0] == ' ' {
        assert parts == [""] + rest;
      } else {
        assert ' ' in t by {
          assert s == [s[0]] + t;
        }
        SplitParts(t);
        assert parts == [[s[0]] + rest[0]] + rest[1..];
      }
      assert parts[|parts| - 1] == rest[|rest| - 1];
    }
  }

  /** The token is a suffix of the header: the whole header when it has no
      space, and otherwise preceded by a space. */
  lemma {:induction false} LastPartIsSuffix(s: string)
    ensures ' ' !in s ==> Token(s) == s
    ensures |Token(s)| <= |s| && s[|s| - |Token(s)|..] == Token(s)
    ensures ' ' in s ==> |Token(s)| < |s| && s[|s| - |Token(s)| - 1] == ' '
  {
    if s == [] {
      assert Split(s) == [""];
    } else {
      TokenStep(s);
      if ' ' in s {
        var t := s[1..];
        var k := |Token(t)|;
        LastPartIsSuffix(t);
        assert s[|s| - k..] == t[|t| - k..];
        if ' ' in t {
          assert s[|s| - k - 1] == t[|t| - k - 1];
        } else {
          assert s[0] == ' ' by {
            assert s == [s[0]] + t;
          }
        }
      }
    }
  }

  /** The token is the text after the last space, or the whole header when it
      has none. */
  lemma TokenAfterLastSpace(header: string)
    ensures ' ' !in Token(header)
    ensures ' ' !in header ==> Token(header) == header
    ensures ' ' in header ==>
              var t := Token(header);
              |t| < |header| && header[|header| - |t| - 1] == ' ' &&
              header[|header| - |t|..] == t
  {
    LastPartIsSuffix(header);
    SplitParts(header);
  }

  datatype Outcome = PassThrough | Unauthorized(error: string)

  /** `ValidateAuthTokenMiddleware.__call__` on the request's `Authorization`
      header; an absent or empty header is not checked. */
  function Handle(header: Option<string>): (r: Outcome)
    ensures header.None? || header.value == "" ==> r == PassThrough
    ensures header.Some? && header.value != "" ==>
              (r.Unauthorized? <==> !(MIN_TOKEN_LENGTH <= |Token(header.value)| <= MAX_TOKEN_LENGTH))
    ensures r.Unauthorized? ==> r.error == TOKEN_LENGTH_MESSAGE
  {
    if header.Some? && header.value != "" then
      var token := Token(header.value);
      if !(MIN_TOKEN_LENGTH <= |token| <= MAX_TOKEN_LENGTH) then Unauthorized(TOKEN_LENGTH_MESSAGE)
      else PassThrough
    else PassThrough
  }

  /** `Bearer <token>` passes exactly when the token is 5..300 characters. */
  lemma BearerHeader(token: string)
    requires ' ' !in token
    ensures Handle(Some("Bearer " + token)).PassThrough? <==>
              MIN_TOKEN_LENGTH <= |token| <= MAX_TOKEN_LENGTH
  {
    assert "Bearer" + " " + token == "Bearer " + token;
    SplitJoin(["Bearer", token]);
  }

  /** A header that ends in a space has an empty token and is refused. */
  lemma TrailingSpaceRejected(header: string)
    requires |header| > 0 && header[|header| - 1] == ' '
    ensures Token(header) == "" && Handle(Some(header)).Unauthorized?
  {
    TokenAfterLastSpace(header);
  }
}
