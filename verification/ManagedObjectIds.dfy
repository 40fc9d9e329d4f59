/** The `<objectType>:<id>` identity shared by alarms and topology (managed_object_id.py). */
module ManagedObjectIds {
  import opened Common

  datatype ManagedObjectId = ManagedObjectId(objectType: string, id: string)

  predicate IsLetter(c: char) {
    'A' <= c <= 'Z' || 'a' <= c <= 'z'
  }

  predicate IsAlphanumeric(c: char) {
    IsLetter(c) || '0' <= c <= '9'
  }

  predicate IsTypeToken(t: string) {
    t != "" && IsLetter(t[0]) && forall i :: 0 <= i < |t| ==> IsAlphanumeric(t[i])
  }

  predicate IsIdentifier(i: string) {
    i != "" && ':' !in i
  }

  /** The position of the first `c`, or the length when there is none. */
  function IndexOf(s: string, c: char): (k: nat)
    ensures k <= |s|
    ensures k < |s| ==> s[k] == c
    ensures forall i :: 0 <= i < k ==> s[i] != c
  {
    if s == "" || s[0] == c then 0 else 1 + IndexOf(s[1..], c)
  }

  predicate IsValid(s: string) {
    var k := IndexOf(s, ':');
    k < |s| && IsTypeToken(s[..k]) && IsIdentifier(s[k+1..])
  }

  function Render(m: ManagedObjectId): string {
    m.objectType + ":" + m.id
  }

  function Parse(s: string): (r: Result<ManagedObjectId, string>)
    ensures r.Ok? <==> IsValid(s)
  {
    if !IsValid(s) then Err("invalid managedObjectId")
    else
      var k := IndexOf(s, ':');
      Ok(ManagedObjectId(s[..k], s[k+1..]))
  }

  lemma FirstColon(t: string, rest: string)
    requires ':' !in t
    ensures IndexOf(t + ":" + rest, ':') == |t|
  {
    var s := t + ":" + rest;
    assert s[|t|] == ':';
    forall i | 0 <= i < |t| ensures s[i] != ':' { assert s[i] == t[i]; }
  }

  lemma FirstMark(a: string, x: string, mark: char)
    requires mark !in a
    ensures IndexOf(a + [mark] + x, mark) == |a|
  {
    var s := a + [mark] + x;
    assert s[|a|] == mark;
    forall k | 0 <= k < |a| ensures s[k] != mark { assert s[k] == a[k]; }
  }

  /** Before its first mark, a string can be read back. */
  lemma HeadsAgree(a: string, x: string, b: string, y: string, mark: char)
    requires mark !in a && mark !in b && a + [mark] + x == b + [mark] + y
    ensures a == b
  {
    FirstMark(a, x, mark);
    FirstMark(b, y, mark);
    assert (a + [mark] + x)[..|a|] == a && (b + [mark] + y)[..|b|] == b;
  }

  const CAPITALS := "ABCDEFGHIJKLMNOPQRSTUVWXYZ"
  const SMALL := "abcdefghijklmnopqrstuvwxyz"
  const DIGITS := "0123456789"

  /** A type token begins with a letter and goes on with letters and digits. */
  lemma TokenExactly(t: string)
    ensures IsTypeToken(t) <==>
      t != "" && t[0] in CAPITALS + SMALL && forall c :: c in t ==> c in CAPITALS + SMALL + DIGITS
  {
    forall c
      ensures c in CAPITALS <==> 'A' <= c <= 'Z'
      ensures c in SMALL <==> 'a' <= c <= 'z'
      ensures c in DIGITS <==> '0' <= c <= '9'
    {
      CapitalsAre(c);
      SmallAre(c);
      DigitsAre(c);
    }
    assert forall i :: 0 <= i < |t| ==> t[i] in t;
  }

  lemma CapitalsAre(c: char)
    ensures 'A' <= c <= 'Z' <==> c in CAPITALS
  {
    if 'A' <= c <= 'Z' { assert CAPITALS[c as int - 'A' as int] == c; }
  }

  lemma SmallAre(c: char)
    ensures 'a' <= c <= 'z' <==> c in SMALL
  {
    if 'a' <= c <= 'z' { assert SMALL[c as int - 'a' as int] == c; }
  }

  lemma DigitsAre(c: char)
    ensures '0' <= c <= '9' <==> c in DIGITS
  {
    if '0' <= c <= '9' { assert DIGITS[c as int - '0' as int] == c; }
  }

  lemma TokenHasNoColon(t: string)
    requires IsTypeToken(t)
    ensures ':' !in t && '|' !in t
  {
  }

  /** A string is valid exactly when it splits as the pattern says, and then it splits in one way. */
  lemma ValidExactly(s: string)
    ensures IsValid(s) <==> exists t, i :: IsTypeToken(t) && IsIdentifier(i) && s == t + ":" + i
    ensures forall t, i ::
      IsTypeToken(t) && IsIdentifier(i) && s == t + ":" + i ==> Parse(s) == Ok(ManagedObjectId(t, i))
  {
    forall t, i | IsTypeToken(t) && IsIdentifier(i) && s == t + ":" + i
      ensures IsValid(s) && Parse(s) == Ok(ManagedObjectId(t, i))
    {
      TokenHasNoColon(t);
      FirstColon(t, i);
      assert s[..|t|] == t && s[|t|+1..] == i;
    }
    if IsValid(s) {
      var k := IndexOf(s, ':');
      assert s == s[..k] + ":" + s[k+1..];
    }
  }

  /** Parsing and rendering undo each other. */
  lemma ParseRenderRoundTrip(m: ManagedObjectId, s: string)
    ensures IsTypeToken(m.objectType) && IsIdentifier(m.id) ==> Parse(Render(m)) == Ok(m)
    ensures Parse(s).Ok? ==> Render(Parse(s).value) == s && IsTypeToken(Parse(s).value.objectType)
  {
    ValidExactly(Render(m));
    if Parse(s).Ok? {
      var k := IndexOf(s, ':');
      assert s == s[..k] + ":" + s[k+1..];
    }
  }
}
