/** The Accept header cut to a maximal length. */
module AcceptHeader {
  const WILDCARD := "*/*;q=0.1"

  function Length(parts: seq<string>): nat {
    if parts == [] then 0 else Length(parts[..|parts| - 1]) + |parts[|parts| - 1]|
  }

  /** The parts separated by commas. */
  function Joined(parts: seq<string>): string {
    if parts == [] then ""
    else if |parts| == 1 then parts[0]
    else Joined(parts[..|parts| - 1]) + "," + parts[|parts| - 1]
  }

  lemma {:induction false} JoinedLength(parts: seq<string>)
    ensures |Joined(parts)| == Length(parts) + if parts == [] then 0 else |parts| - 1
  {
    if |parts| > 1 {
      JoinedLength(parts[..|parts| - 1]);
    } else if |parts| == 1 {
      assert parts[..0] == [];
    }
  }

  /** Between any two parts there is a comma. */
  lemma {:induction false} JoinedAt(parts: seq<string>, k: nat)
    requires 0 < k < |parts|
    ensures Joined(parts) == Joined(parts[..k]) + "," + Joined(parts[k..])
  {
    var front, last := parts[..|parts| - 1], parts[|parts| - 1];
    if k == |parts| - 1 {
      assert parts[k..] == [last];
    } else {
      JoinedAt(front, k);
      assert front[..k] == parts[..k] && parts[k..][..|parts| - k - 1] == front[k..];
      assert Joined(parts[k..]) == Joined(front[k..]) + "," + last;
      Regroup(Joined(parts[..k]), Joined(front[k..]), last);
    }
  }

  lemma Regroup(a: string, b: string, c: string)
    ensures (a + "," + b) + "," + c == a + "," + (b + "," + c)
  {
  }

  lemma {:induction false} LengthPrefix(parts: seq<string>, k: nat)
    requires k <= |parts|
    ensures Length(parts[..k]) <= Length(parts)
  {
    if k < |parts| {
      LengthPrefix(parts[..|parts| - 1], k);
      assert parts[..|parts| - 1][..k] == parts[..k];
    } else {
      assert parts[..k] == parts;
    }
  }

  /** What the header is made of: all types if they fit, otherwise the first `kept` of them and the wildcard. `cut` is
      the number of types that had been taken when the next one did not fit any more. */
  ghost predicate Choice(types: seq<string>, maxLength: int, result: seq<string>, kept: nat, cut: nat) {
    var n := |types| - 1;
    && kept <= cut <= |types|
    && if n + Length(types) <= maxLength then kept == |types| && result == types
       else Cut(types, maxLength, kept, cut) && result == types[..kept] + [WILDCARD]
  }

  /** The first type that does not fit is at `cut`; `kept` is the largest number of types before it that leaves room
      for the wildcard, as far as the length counted includes the commas of all types not taken. */
  ghost predicate Cut(types: seq<string>, maxLength: int, kept: nat, cut: nat)
    requires kept <= cut <= |types|
  {
    var n := |types| - 1;
    && cut < |types| && n + Length(types[..cut + 1]) > maxLength
    && (cut > 0 ==> n + Length(types[..cut]) <= maxLength)
    && (kept > 0 ==> n - (cut - kept) + Length(types[..kept]) + |WILDCARD| <= maxLength)
    && (forall j :: kept < j <= cut ==> n - (cut - j) + Length(types[..j]) + |WILDCARD| > maxLength)
  }

  /** Drops types from the end until the wildcard fits; `length` also counts the commas of types not taken. */
  method MakeRoom(types: seq<string>, cut: nat, length: int, maxLength: int) returns (taken: seq<string>)
    requires cut < |types| && length == |types| - 1 + Length(types[..cut])
    ensures |taken| <= cut && taken == types[..|taken|]
    ensures taken != [] ==> |types| - 1 - (cut - |taken|) + Length(taken) + |WILDCARD| <= maxLength
    ensures forall j :: |taken| < j <= cut ==> |types| - 1 - (cut - j) + Length(types[..j]) + |WILDCARD| > maxLength
  {
    taken := types[..cut];
    var partsLength := length;
    ghost var over := 0;
    while partsLength + |WILDCARD| > maxLength
      invariant |taken| <= cut && taken == types[..|taken|] && (over > 0 ==> taken == [])
      invariant partsLength == |types| - 1 - (cut - |taken|) - over + Length(taken)
      invariant forall j :: |taken| < j <= cut ==> |types| - 1 - (cut - j) + Length(types[..j]) + |WILDCARD| > maxLength
      decreases partsLength + |WILDCARD| - maxLength
    {
      var last := "";
      if |taken| > 0 {
        last := taken[|taken| - 1];
        taken := taken[..|taken| - 1];
      } else {
        over := over + 1;
      }
      partsLength := partsLength - (|last| + 1);
    }
  }

  /** `types` are the media types with their priorities, in order of priority. */
  method MediaTypesToAcceptString(types: seq<string>, maxLength: int)
    returns (header: string, ghost parts: seq<string>, ghost kept: nat, ghost cut: nat)
    ensures types == [] ==> header == "*/*"
    ensures types != [] ==> header == Joined(parts) && Choice(types, maxLength, parts, kept, cut)
  {
    var partsLength := |types| - 1;
    var taken: seq<string> := [];
    var i := 0;
    while i < |types|
      invariant 0 <= i <= |types| && taken == types[..i] && partsLength == |types| - 1 + Length(types[..i])
      invariant i > 0 ==> partsLength <= maxLength
    {
      assert types[..i + 1][..i] == types[..i];
      if partsLength + |types[i]| > maxLength {
        cut := i;
        taken := MakeRoom(types, i, partsLength, maxLength);
        kept := |taken|;
        LengthPrefix(types, i + 1);
        parts := taken + [WILDCARD];
        header := Join(taken + [WILDCARD]);
        return;
      }
      partsLength := partsLength + |types[i]|;
      taken := taken + [types[i]];
      i := i + 1;
    }
    assert types[..|types|] == types;
    kept, cut := |types|, |types|;
    parts := taken;
    if |taken| == 0 { header := "*/*"; } else { header := Join(taken); }
  }

  method Join(parts: seq<string>) returns (s: string)
    ensures s == Joined(parts)
  {
    s := "";
    for i := 0 to |parts|
      invariant s == Joined(parts[..i])
    {
      assert parts[..i + 1][..i] == parts[..i];
      s := if i == 0 then parts[0] else s + "," + parts[i];
    }
    assert parts[..|parts|] == parts;
  }

  /** The header is no longer than allowed exactly if nothing had to be cut, or there is room for the wildcard. */
  lemma LengthExactly(types: seq<string>, maxLength: int, result: seq<string>, kept: nat, cut: nat)
    requires types != [] && Choice(types, maxLength, result, kept, cut)
    ensures |Joined(result)| <= maxLength <==> |Joined(types)| <= maxLength || maxLength >= 9
  {
    JoinedLength(types);
    JoinedLength(result);
    if |Joined(types)| > maxLength {
      assert result[..|result| - 1] == types[..kept];
      assert Length(result) == Length(types[..kept]) + |WILDCARD|;
    }
  }

  /** The types that are kept are the first ones, and the wildcard is there exactly if something was cut. */
  lemma KeptIsPrefix(types: seq<string>, maxLength: int, result: seq<string>, kept: nat, cut: nat)
    requires types != [] && Choice(types, maxLength, result, kept, cut)
    ensures result == types[..kept] + (if kept < |types| then ["*/*;q=0.1"] else [])
    ensures kept < |types| <==> |Joined(types)| > maxLength
  {
    JoinedLength(types);
    assert types[..|types|] == types;
  }
}
