/** The string operations the routes rely on: JavaScript's trim(),
    toLowerCase() and startsWith(), and the whitespace class \s of its
    regular expressions. */
module Text {

  /** JavaScript's WhiteSpace and LineTerminator characters: what trim()
      removes and what \s matches. */
  predicate IsSpace(c: char)
  {
    c == ' ' || c == '\t' || c == '\n' || c == '\r' || c == '\U{000B}' || c == '\U{000C}'
    || c == '\U{00A0}' || c == '\U{1680}' || ('\U{2000}' <= c <= '\U{200A}')
    || c == '\U{2028}' || c == '\U{2029}' || c == '\U{202F}' || c == '\U{205F}'
    || c == '\U{3000}' || c == '\U{FEFF}'
  }

  /** s without its leading whitespace. */
  function TrimStart(s: string): (r: string)
    ensures |r| <= |s| && r == s[|s| - |r|..]
    ensures r == [] || !IsSpace(r[0])
    ensures forall k :: 0 <= k < |s| - |r| ==> IsSpace(s[k])
  {
    if s != [] && IsSpace(s[0]) then TrimStart(s[1..]) else s
  }

  /** s without its trailing whitespace. */
  function TrimEnd(s: string): (r: string)
    ensures |r| <= |s| && r == s[..|r|]
    ensures r == [] || !IsSpace(r[|r| - 1])
    ensures forall k :: |r| <= k < |s| ==> IsSpace(s[k])
  {
    if s != [] && IsSpace(s[|s| - 1]) then TrimEnd(s[..|s| - 1]) else s
  }

  /** No whitespace at either end. */
  predicate Trimmed(s: string)
  {
    s == [] || (!IsSpace(s[0]) && !IsSpace(s[|s| - 1]))
  }

  /** String.prototype.trim: TrimStart, then TrimEnd, so what is left is
      a slice of s whose ends are not whitespace. */
  function Trim(s: string): (r: string)
    ensures |r| <= |s| && Trimmed(r)
  {
    var t := TrimStart(s);
    var r := TrimEnd(t);
    assert r == [] || r[0] == t[0];
    r
  }

  /** What trim() keeps is one contiguous slice of s, and everything it
      drops on either side is whitespace. */
  lemma TrimSlice(s: string) returns (i: nat)
    ensures i <= |s| - |Trim(s)| && Trim(s) == s[i..i + |Trim(s)|]
    ensures forall k :: 0 <= k < i ==> IsSpace(s[k])
    ensures forall k :: i + |Trim(s)| <= k < |s| ==> IsSpace(s[k])
  {
    var t := TrimStart(s);
    i := |s| - |t|;
    var r := TrimEnd(t);
    assert Trim(s) == r;
    assert r == s[i..i + |r|] by {
      assert t == s[i..] && r == t[..|r|];
    }
    forall k | i + |r| <= k < |s| ensures IsSpace(s[k]) {
      assert |r| <= k - i < |t|;
      assert s[k] == t[k - i];
    }
  }

  /** TrimStart leaves nothing exactly when s is all whitespace. */
  lemma TrimStartEmpty(s: string)
    ensures TrimStart(s) == [] <==> forall k :: 0 <= k < |s| ==> IsSpace(s[k])
  {
    var t := TrimStart(s);
    if t != [] {
      assert t[0] == s[|s| - |t|];
    }
  }

  /** TrimEnd leaves nothing exactly when s is all whitespace. */
  lemma TrimEndEmpty(s: string)
    ensures TrimEnd(s) == [] <==> forall k :: 0 <= k < |s| ==> IsSpace(s[k])
  {
    var t := TrimEnd(s);
    if t != [] {
      assert t[|t| - 1] == s[|t| - 1];
    }
  }

  /** A string is its own trim exactly when it has no whitespace at
      either end. */
  lemma TrimIdentity(s: string)
    ensures Trim(s) == s <==> Trimmed(s)
  {
    if Trimmed(s) {
      assert TrimStart(s) == s;
    }
  }

  lemma TrimIdempotent(s: string)
    ensures Trim(Trim(s)) == Trim(s)
  {
    TrimIdentity(Trim(s));
  }

  /** A string trims to "" exactly when it is all whitespace. */
  lemma TrimEmpty(s: string)
    ensures Trim(s) == [] <==> forall k :: 0 <= k < |s| ==> IsSpace(s[k])
  {
    var t := TrimStart(s);
    TrimStartEmpty(s);
    TrimEndEmpty(t);
    assert Trim(s) == TrimEnd(t);
  }

  predicate IsUpper(c: char)
  {
    'A' <= c <= 'Z'
  }

  function LowerChar(c: char): char
  {
    if IsUpper(c) then (c as int + 32) as char else c
  }

  lemma LowerCharSpace(c: char)
    ensures IsSpace(LowerChar(c)) <==> IsSpace(c)
  {
  }

  /** Lower-casing a trimmed string leaves it trimmed. */
  lemma LowerKeepsTrimmed(t: string)
    requires Trimmed(t)
    ensures Trimmed(ToLower(t))
  {
    var r := ToLower(t);
    if r != [] {
      LowerCharSpace(t[0]);
      LowerCharSpace(t[|t| - 1]);
    }
  }

  /** No upper-case ASCII letter. */
  predicate LowerCase(s: string)
  {
    forall k :: 0 <= k < |s| ==> !IsUpper(s[k])
  }

  /** String.prototype.toLowerCase on the ASCII letters. */
  function ToLower(s: string): (r: string)
    ensures |r| == |s| && LowerCase(r)
    ensures forall k :: 0 <= k < |s| && !IsUpper(s[k]) ==> r[k] == s[k]
    ensures forall k :: 0 <= k < |s| && IsUpper(s[k]) ==> r[k] as int == s[k] as int + 32
  {
    seq(|s|, k requires 0 <= k < |s| => LowerChar(s[k]))
  }

  lemma ToLowerIdempotent(s: string)
    ensures ToLower(ToLower(s)) == ToLower(s)
  {
  }

  predicate StartsWith(s: string, prefix: string)
  {
    |prefix| <= |s| && s[..|prefix|] == prefix
  }

  /** An email as the routes store it: trimmed and lower-cased. */
  predicate NormalEmail(e: string)
  {
    Trimmed(e) && LowerCase(e)
  }

  /** What the routes do to an email before looking it up:
      trim(), then toLowerCase(): each character of the trimmed email,
      lower-cased, and the result is in normal form. */
  function NormaliseEmail(e: string): (r: string)
    ensures |r| == |Trim(e)| <= |e|
    ensures forall k :: 0 <= k < |r| ==> r[k] == LowerChar(Trim(e)[k])
    ensures NormalEmail(r)
  {
    var t := Trim(e);
    LowerKeepsTrimmed(t);
    ToLower(t)
  }

  /** Exactly the normal emails are left alone by normalising. */
  lemma NormaliseEmailFixes(e: string)
    ensures NormaliseEmail(e) == e <==> NormalEmail(e)
  {
    TrimIdentity(e);
    if NormalEmail(e) {
      assert ToLower(e) == e;
    }
  }

  /** An email normalises to "" exactly when it is all whitespace. */
  lemma NormaliseEmailEmpty(e: string)
    ensures NormaliseEmail(e) == [] <==> forall k :: 0 <= k < |e| ==> IsSpace(e[k])
  {
    TrimEmpty(e);
  }

  /** Normalising twice is normalising once. */
  lemma NormaliseEmailIdempotent(e: string)
    ensures NormaliseEmail(NormaliseEmail(e)) == NormaliseEmail(e)
  {
    NormaliseEmailFixes(NormaliseEmail(e));
  }
}
