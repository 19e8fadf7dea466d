/** Values shared by every part of the exchange REST client model: optional
    values, the exceptions the client can raise, raw JSON records, and the
    substring test that the endpoint builders rely on. */
module Common {

  datatype Option<+T> = None | Some(value: T)

  /** The exceptions the client lets escape, by the Python class that carries them. */
  datatype Error =
    | KeyError(key: string)            // a dict lookup of a missing key
    | ValueError                       // a timestamp that does not match the parse format
    | UnicodeEncodeError               // `str.encode('ascii')` of a non-ASCII character
    | SecretDecodeError                // `base64.b64decode` of a malformed secret
    | UnboundLocalError(name: string)  // a read of a local variable that was never assigned
    | HttpError(code: int)             // `raise_for_status` on a 4xx or 5xx response
    | TransportError                   // a transport failure no handler catches

  datatype Result<+T> = Ok(value: T) | Err(error: Error)

  /** A JSON object as the exchange returns it: field name to (opaque) value. */
  type Record = map<string, string>

  /** A dict lookup: the value, or the KeyError Python raises. */
  function Field(m: Record, key: string): (r: Result<string>)
    ensures r.Ok? <==> key in m
    ensures r.Ok? ==> r.value == m[key]
    ensures r.Err? ==> r.error == KeyError(key)
  {
    if key in m then Ok(m[key]) else Err(KeyError(key))
  }

  /** `sub` occurs in `s` starting at position `i`. */
  predicate OccursAt(s: string, sub: string, i: nat)
  {
    i <= |s| && sub <= s[i..]
  }

  /** Python's `sub in s` on strings: `sub` starts at some position of `s`. */
  predicate Contains(s: string, sub: string)
  {
    exists i: nat :: i <= |s| && OccursAt(s, sub, i)
  }

  /** The scan that finds an occurrence: `sub` is a prefix of `s`, or it
      occurs in `s` without its first character. */
  lemma ContainsScan(s: string, sub: string)
    ensures Contains(s, sub) <==> sub <= s || (|s| > 0 && Contains(s[1..], sub))
  {
    if sub <= s {
      assert s[0..] == s;
      assert OccursAt(s, sub, 0);
    } else if |s| > 0 {
      if Contains(s[1..], sub) {
        var i: nat :| i <= |s[1..]| && OccursAt(s[1..], sub, i);
        assert s[1..][i..] == s[i + 1..];
        assert OccursAt(s, sub, i + 1);
      }
      if Contains(s, sub) {
        var i: nat :| i <= |s| && OccursAt(s, sub, i);
        assert i != 0 by { assert s[0..] == s; }
        assert s[1..][i - 1..] == s[i..];
        assert OccursAt(s[1..], sub, i - 1);
      }
    }
  }

  /** An occurrence survives appending text after it. */
  lemma ContainsAppend(s: string, t: string, sub: string)
    requires Contains(s, sub)
    ensures Contains(s + t, sub)
  {
    var i: nat :| i <= |s| && OccursAt(s, sub, i);
    assert (s + t)[i..] == s[i..] + t;
    assert OccursAt(s + t, sub, i);
  }

  /** Regrouping a concatenation of three texts. */
  lemma ConcatAssoc(a: string, b: string, c: string)
    ensures a + b + c == a + (b + c)
  {
  }
}
