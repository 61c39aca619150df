/** MongoDB object identifiers as the application sees them: 24 hexadecimal
    digits. Covers the cast Mongoose applies to a string used as an `_id`
    (`findById`, an `ObjectId` path in a document), the format check of the
    quiz-delete route (routes/index.js:407-409) and JavaScript's
    `String.prototype.trim`, which that route applies first. */
module ObjectIds {
  import opened Wrappers

  /** The value of one hexadecimal digit. */
  type Nibble = n: int | 0 <= n < 16

  /** Twelve bytes, kept as the 24 hexadecimal digits they print as. */
  type ObjectId = s: seq<Nibble> | |s| == 24 witness seq(24, _ => 0)

  predicate IsHexChar(c: char) {
    '0' <= c <= '9' || 'a' <= c <= 'f' || 'A' <= c <= 'F'
  }

  /** The digit value of a hexadecimal character, in either case. */
  function HexValue(c: char): (n: Nibble)
    requires IsHexChar(c)
  {
    if '0' <= c <= '9' then c as int - '0' as int
    else if 'a' <= c <= 'f' then c as int - 'a' as int + 10
    else c as int - 'A' as int + 10
  }

  /** The lower-case digit `ObjectId.toString()` prints for a nibble. */
  function HexDigit(n: Nibble): (c: char)
    ensures IsHexChar(c) && HexValue(c) == n
    ensures !('A' <= c <= 'F')
  {
    if n < 10 then ('0' as int + n) as char else ('a' as int + n - 10) as char
  }

  /** The lower-case form of a hexadecimal character. */
  function LowerHex(c: char): (d: char)
    requires IsHexChar(c)
    ensures IsHexChar(d) && HexValue(d) == HexValue(c) && !('A' <= d <= 'F')
  {
    if 'A' <= c <= 'F' then (c as int - 'A' as int + 'a' as int) as char else c
  }

  /** `id.toString()`: the 24 lower-case hexadecimal digits. */
  function ToHex(id: ObjectId): (s: string)
    ensures |s| == 24
    ensures forall i :: 0 <= i < 24 ==> IsHexChar(s[i]) && HexValue(s[i]) == id[i] && !('A' <= s[i] <= 'F')
  {
    seq(24, i requires 0 <= i < 24 => HexDigit(id[i]))
  }

  /** The regular expression `/^[0-9a-fA-F]{24}$/`. A string it accepts has
      no white space. */
  predicate IsHex24(s: string)
    ensures IsHex24(s) ==> forall i :: 0 <= i < |s| ==> !IsWhiteSpace(s[i])
  {
    |s| == 24 && forall i :: 0 <= i < |s| ==> IsHexChar(s[i])
  }

  /** Mongoose's cast of a string to an ObjectId: 24 hexadecimal digits in
      either case, anything else a cast error. Casting accepts exactly the
      strings the format regular expression accepts, and keeps the value of
      every digit. */
  function CastObjectId(s: string): (r: Option<ObjectId>)
    ensures r.Some? <==> IsHex24(s)
    ensures r.Some? ==> forall i :: 0 <= i < 24 ==> r.value[i] == HexValue(s[i])
  {
    if IsHex24(s) then Some(seq(24, i requires 0 <= i < 24 => HexValue(s[i]))) else None
  }

  /** Printing an id and casting the text back gives the same id. */
  lemma CastToHex(id: ObjectId)
    ensures CastObjectId(ToHex(id)) == Some(id)
  {
    var s := ToHex(id);
    assert IsHex24(s);
    assert CastObjectId(s).value == id;
  }

  /** A string that casts to `id` is `id`'s printed form up to letter case. */
  lemma ToHexOfCast(s: string, id: ObjectId)
    requires CastObjectId(s) == Some(id)
    ensures ToHex(id) == seq(24, i requires 0 <= i < 24 => LowerHex(s[i]))
  {
    var t := seq(24, i requires 0 <= i < 24 => LowerHex(s[i]));
    forall i | 0 <= i < 24
      ensures ToHex(id)[i] == t[i]
    {
      HexDigitUnique(ToHex(id)[i], t[i]);
    }
  }

  /** Two lower-case hexadecimal characters with the same value are equal. */
  lemma HexDigitUnique(c: char, d: char)
    requires IsHexChar(c) && IsHexChar(d) && !('A' <= c <= 'F') && !('A' <= d <= 'F')
    requires HexValue(c) == HexValue(d)
    ensures c == d
  {
  }

  /** The characters ECMAScript's `trim` removes: WhiteSpace (tab, vertical
      tab, form feed, space, no-break space, the byte order mark and every
      other space separator) and LineTerminator (LF, CR, LS, PS). */
  predicate IsWhiteSpace(c: char)
    ensures IsWhiteSpace(c) ==> !IsHexChar(c)
  {
    c == '\t' || c == '\n' || c == '\U{B}' || c == '\U{C}' || c == '\r' || c == ' '
    || c == '\U{A0}' || c == '\U{1680}' || ('\U{2000}' <= c <= '\U{200A}')
    || c == '\U{2028}' || c == '\U{2029}' || c == '\U{202F}' || c == '\U{205F}'
    || c == '\U{3000}' || c == '\U{FEFF}'
  }

  /** Drops leading white space: the result is a suffix of `s`, every dropped
      character is white space, and the result does not start with any. */
  function TrimStart(s: string): (r: string)
    ensures |r| <= |s| && r == s[|s| - |r|..]
    ensures forall i :: 0 <= i < |s| - |r| ==> IsWhiteSpace(s[i])
    ensures r == [] || !IsWhiteSpace(r[0])
  {
    if s != [] && IsWhiteSpace(s[0]) then TrimStart(s[1..]) else s
  }

  /** Drops trailing white space: the result is a prefix of `s`, every
      dropped character is white space, and the result does not end with any. */
  function TrimEnd(s: string): (r: string)
    ensures |r| <= |s| && r == s[..|r|]
    ensures forall i :: |r| <= i < |s| ==> IsWhiteSpace(s[i])
    ensures r == [] || !IsWhiteSpace(r[|r| - 1])
  {
    if s != [] && IsWhiteSpace(s[|s| - 1]) then TrimEnd(s[..|s| - 1]) else s
  }

  /** `r` is the slice `s[k..k+|r|]` and everything around it is white space. */
  ghost predicate TrimmedAt(s: string, k: int, r: string) {
    && 0 <= k <= |s| - |r|
    && r == s[k..k + |r|]
    && (forall i :: 0 <= i < k ==> IsWhiteSpace(s[i]))
    && (forall i :: k + |r| <= i < |s| ==> IsWhiteSpace(s[i]))
  }

  /** `String.prototype.trim`: a contiguous slice of `s` that neither starts
      nor ends with white space, with only white space around it. */
  function Trim(s: string): (r: string)
    ensures exists k :: TrimmedAt(s, k, r)
    ensures r == [] || (!IsWhiteSpace(r[0]) && !IsWhiteSpace(r[|r| - 1]))
  {
    var t := TrimStart(s);
    var r := TrimEnd(t);
    assert TrimmedAt(s, |s| - |t|, r);
    r
  }

  /** The quiz-delete route's id check (routes/index.js:407-409): trim, then
      demand exactly 24 hexadecimal digits. */
  function ParseQuizIdParam(param: string): (r: Option<ObjectId>)
    ensures r.Some? <==> IsHex24(Trim(param))
    ensures r.Some? ==> CastObjectId(Trim(param)) == r
  {
    CastObjectId(Trim(param))
  }

  /** Surrounding white space does not change the id the route reads. */
  lemma PaddedIdParses(id: ObjectId, pre: string, post: string)
    requires forall i :: 0 <= i < |pre| ==> IsWhiteSpace(pre[i])
    requires forall i :: 0 <= i < |post| ==> IsWhiteSpace(post[i])
    ensures ParseQuizIdParam(pre + ToHex(id) + post) == Some(id)
  {
    TrimOfPadded(pre, ToHex(id), post);
    CastToHex(id);
  }

  /** Leading white space is dropped up to the first other character. */
  lemma {:induction false} TrimStartOfPadded(pad: string, t: string)
    requires forall i :: 0 <= i < |pad| ==> IsWhiteSpace(pad[i])
    requires t != [] && !IsWhiteSpace(t[0])
    ensures TrimStart(pad + t) == t
  {
    if pad != [] {
      assert (pad + t)[1..] == pad[1..] + t;
      TrimStartOfPadded(pad[1..], t);
    } else {
      assert pad + t == t;
    }
  }

  /** Trailing white space is dropped back to the last other character. */
  lemma {:induction false} TrimEndOfPadded(t: string, pad: string)
    requires forall i :: 0 <= i < |pad| ==> IsWhiteSpace(pad[i])
    requires t != [] && !IsWhiteSpace(t[|t| - 1])
    ensures TrimEnd(t + pad) == t
  {
    if pad != [] {
      var p := pad[..|pad| - 1];
      assert (t + pad)[..|t + pad| - 1] == t + p;
      TrimEndOfPadded(t, p);
    } else {
      assert t + pad == t;
    }
  }

  /** Trimming white space padding off a string that has none at its ends
      recovers that string. */
  lemma TrimOfPadded(pre: string, t: string, post: string)
    requires forall i :: 0 <= i < |pre| ==> IsWhiteSpace(pre[i])
    requires forall i :: 0 <= i < |post| ==> IsWhiteSpace(post[i])
    requires t != [] && !IsWhiteSpace(t[0]) && !IsWhiteSpace(t[|t| - 1])
    ensures Trim(pre + t + post) == t
  {
    assert pre + t + post == pre + (t + post);
    assert (t + post)[0] == t[0];
    TrimStartOfPadded(pre, t + post);
    TrimEndOfPadded(t, post);
  }

  /** An id already in the regular expression's form is unaffected by the
      trim the delete route applies first. */
  lemma TrimKeepsHex24(s: string)
    requires IsHex24(s)
    ensures Trim(s) == s
    ensures ParseQuizIdParam(s) == CastObjectId(s)
  {
    assert [] + s + [] == s;
    TrimOfPadded([], s, []);
  }
}
