/** Cache keys: validation, clean-up and construction, over ASCII strings (one byte a character). */
module Keys {
  import opened CacheTypes

  const MAX_KEY_LENGTH := 250

  predicate IsControl(c: char) { c < ' ' || c == 127 as char }

  predicate IsSpace(c: char) { c == ' ' || '\t' <= c <= '\r' }

  predicate NoControl(s: string) { forall i :: 0 <= i < |s| ==> !IsControl(s[i]) }

  predicate Trimmed(s: string) { s == "" || (!IsSpace(s[0]) && !IsSpace(s[|s| - 1])) }

  /** What ValidateKey accepts. Blanks inside a key are allowed. */
  predicate Accepted(key: string) {
    0 < |key| <= MAX_KEY_LENGTH && NoControl(key) && Trimmed(key)
  }

  /** Where the blanks from position i on end. */
  function BlanksEnd(s: string, i: nat): (n: nat)
    requires i <= |s|
    ensures i <= n <= |s|
    ensures forall k :: i <= k < n ==> IsSpace(s[k])
    ensures n < |s| ==> !IsSpace(s[n])
    decreases |s| - i
  {
    if i < |s| && IsSpace(s[i]) then BlanksEnd(s, i + 1) else i
  }

  /** Where the blanks before position i begin. */
  function BlanksBegin(s: string, i: nat): (n: nat)
    requires i <= |s|
    ensures n <= i
    ensures forall k :: n <= k < i ==> IsSpace(s[k])
    ensures n > 0 ==> !IsSpace(s[n - 1])
  {
    if i > 0 && IsSpace(s[i - 1]) then BlanksBegin(s, i - 1) else i
  }

  function TrimLeft(s: string): (r: string)
    ensures |r| <= |s| && r == s[|s| - |r|..]
    ensures r != "" ==> !IsSpace(r[0])
    ensures s != "" && !IsSpace(s[0]) ==> r == s
  {
    s[BlanksEnd(s, 0)..]
  }

  function TrimRight(s: string): (r: string)
    ensures |r| <= |s| && r == s[..|r|]
    ensures r != "" ==> !IsSpace(r[|r| - 1])
    ensures s != "" && !IsSpace(s[|s| - 1]) ==> r == s
  {
    s[..BlanksBegin(s, |s|)]
  }

  function TrimSpace(s: string): string { TrimRight(TrimLeft(s)) }

  function WithoutControl(s: string): (r: string)
    ensures |r| <= |s| && NoControl(r)
    ensures NoControl(s) ==> r == s
  {
    if s == "" then ""
    else
      var front := WithoutControl(s[..|s| - 1]);
      if IsControl(s[|s| - 1]) then front else front + [s[|s| - 1]]
  }

  function Truncated(s: string): string { if |s| > MAX_KEY_LENGTH then s[..MAX_KEY_LENGTH] else s }

  function Sanitized(key: string): string { Truncated(WithoutControl(TrimSpace(key))) }

  lemma AcceptedIff(key: string)
    requires 0 < |key| <= MAX_KEY_LENGTH && NoControl(key)
    ensures Accepted(key) <==> |TrimSpace(key)| == |key|
  {
    TrimIsIdentityIff(key);
  }

  /** Accepts exactly the keys that are neither empty nor too long, contain no control
      character, and have no blank at either end. */
  method ValidateKey(key: string) returns (r: Outcome)
    ensures r == if Accepted(key) then Ok else Err(InvalidKey)
    ensures r.Ok? <==>
      && 1 <= |key| <= 250 && (forall i :: 0 <= i < |key| ==> ' ' <= key[i] && key[i] != 127 as char)
      && key[0] != ' ' && key[|key| - 1] != ' '
  {
    if key == "" || |key| > MAX_KEY_LENGTH {
      return Err(InvalidKey);
    }
    for i := 0 to |key|
      invariant NoControl(key[..i])
    {
      if IsControl(key[i]) {
        return Err(InvalidKey);
      }
    }
    assert key[..|key|] == key;
    AcceptedIff(key);
    if |TrimSpace(key)| != |key| {
      return Err(InvalidKey);
    }
    r := Ok;
  }

  method RemoveControl(s: string) returns (kept: string)
    ensures kept == WithoutControl(s)
  {
    kept := "";
    for i := 0 to |s|
      invariant kept == WithoutControl(s[..i])
    {
      var front := s[..i + 1];
      assert front[..i] == s[..i] && front[i] == s[i];
      if !IsControl(s[i]) {
        kept := kept + [s[i]];
      }
    }
    assert s[..|s|] == s;
  }

  method SanitizeKey(key: string) returns (r: string, status: Outcome)
    ensures r == Sanitized(key)
    ensures
      var printable := WithoutControl(TrimSpace(key));
      |r| <= |printable| && r == printable[..|r|] && |r| == (if |printable| > 250 then 250 else |printable|)
    ensures status == if Accepted(r) then Ok else Err(InvalidKey)
  {
    r := RemoveControl(TrimSpace(key));
    if |r| > MAX_KEY_LENGTH {
      r := r[..MAX_KEY_LENGTH];
    }
    status := ValidateKey(r);
  }

  lemma TrimIsIdentityIff(s: string)
    ensures Trimmed(s) <==> |TrimSpace(s)| == |s|
    ensures Trimmed(s) ==> TrimSpace(s) == s
  {
    var left := TrimLeft(s);
    if |TrimSpace(s)| == |s| {
      assert left == s && TrimRight(left) == s;
    }
  }

  /** A string of printable characters keeps that property in any part. */
  lemma PartIsPrintable(s: string, from: nat, until: nat)
    requires from <= until <= |s| && NoControl(s)
    ensures NoControl(s[from..until])
  {
  }

  /** Trimming cuts off blanks at the front, then at the back, and nothing else. */
  lemma TrimCutsBlanks(s: string) returns (front: nat)
    ensures front <= |s| && TrimSpace(s) <= s[front..]
    ensures forall i :: 0 <= i < front ==> IsSpace(s[i])
    ensures forall i :: |TrimSpace(s)| <= i < |s[front..]| ==> IsSpace(s[front..][i])
  {
    front := |s| - |TrimLeft(s)|;
  }

  /** The result of trimming has no blank at either end. */
  lemma TrimTrims(s: string)
    ensures Trimmed(TrimSpace(s))
    ensures |TrimSpace(s)| <= |s|
    ensures NoControl(s) ==> NoControl(TrimSpace(s))
  {
    var left := TrimLeft(s);
    var r := TrimRight(left);
    if r != "" {
      assert r[0] == left[0];
    }
    if NoControl(s) {
      PartIsPrintable(s, |s| - |left|, |s|);
      assert left == s[|s| - |left|..|s|];
      PartIsPrintable(left, 0, |r|);
    }
  }

  /** A key is left alone by sanitizing if and only if it is accepted, or empty. */
  lemma FixedPointIff(key: string)
    ensures Sanitized(key) == key <==> key == "" || Accepted(key)
  {
    var trimmed := TrimSpace(key);
    TrimTrims(key);
    TrimIsIdentityIff(key);
    if Sanitized(key) == key {
      assert |trimmed| == |key|;
    }
  }

  /** Two passes always give an accepted key or the empty string, and a third changes nothing. */
  lemma TwoPassesSuffice(key: string)
    ensures
      var twice := Sanitized(Sanitized(key));
      && (twice == "" || Accepted(twice))
      && Sanitized(twice) == twice
  {
    var once := Sanitized(key);
    assert NoControl(once) && |once| <= MAX_KEY_LENGTH;
    TrimTrims(once);
    FixedPointIff(Sanitized(once));
  }

  /** A blank of the trimmed key that one pass leaves at an end: only control characters stand
      before it, or it is the last character that fits, or only control characters follow it. */
  predicate ExposesBlank(trimmed: string) {
    exists i :: 0 <= i < |trimmed| && trimmed[i] == ' ' && BlankAtEnd(trimmed, i)
  }

  predicate BlankAtEnd(trimmed: string, i: nat)
    requires i < |trimmed|
  {
    var kept := |WithoutControl(trimmed[..i])|;
    || kept == 0
    || kept == MAX_KEY_LENGTH - 1
    || (kept < MAX_KEY_LENGTH && WithoutControl(trimmed[i + 1..]) == "")
  }

  lemma {:induction false} KeptConcat(s: string, t: string)
    ensures WithoutControl(s + t) == WithoutControl(s) + WithoutControl(t)
    decreases |t|
  {
    if t == "" {
      assert s + t == s;
    } else {
      assert (s + t)[..|s + t| - 1] == s + t[..|t| - 1];
      KeptConcat(s, t[..|t| - 1]);
    }
  }

  lemma OneKept(c: char)
    requires !IsControl(c)
    ensures WithoutControl([c]) == [c]
  {
    assert [c][..0] == "";
  }

  lemma KeptOfThree(before: string, c: char, after: string)
    requires !IsControl(c)
    ensures WithoutControl(before + [c] + after) == WithoutControl(before) + [c] + WithoutControl(after)
  {
    OneKept(c);
    KeptConcat(before, [c]);
    KeptConcat(before + [c], after);
  }

  lemma SplitAround<T>(s: seq<T>, i: nat)
    requires i < |s|
    ensures s == s[..i] + [s[i]] + s[i + 1..]
  {
  }

  /** What is kept of a string, around one of its printable characters. */
  lemma KeptAround(s: string, i: nat)
    requires i < |s| && !IsControl(s[i])
    ensures WithoutControl(s) == WithoutControl(s[..i]) + [s[i]] + WithoutControl(s[i + 1..])
  {
    SplitAround(s, i);
    KeptOfThree(s[..i], s[i], s[i + 1..]);
  }

  /** Where the kept character number p comes from. */
  lemma {:induction false} OriginOf(s: string, p: nat) returns (i: nat)
    requires p < |WithoutControl(s)|
    ensures i < |s| && !IsControl(s[i]) && |WithoutControl(s[..i])| == p && s[i] == WithoutControl(s)[p]
  {
    var front := s[..|s| - 1];
    if p < |WithoutControl(front)| {
      i := OriginOf(front, p);
      assert s[..i] == front[..i];
    } else {
      i := |s| - 1;
    }
  }

  /** An exposed blank ends up at an end of the sanitized key. */
  lemma ExposedIsRejected(s: string, i: nat)
    requires i < |s| && s[i] == ' ' && BlankAtEnd(s, i)
    ensures Truncated(WithoutControl(s)) != "" && !Trimmed(Truncated(WithoutControl(s)))
  {
    var kept, n := WithoutControl(s), |WithoutControl(s[..i])|;
    KeptAround(s, i);
    assert kept[n] == ' ';
    assert n == 0 || n == |Truncated(kept)| - 1;
  }

  /** A blank at an end of the sanitized key was an exposed one. */
  lemma RejectedIsExposed(s: string)
    requires !Trimmed(Truncated(WithoutControl(s)))
    ensures ExposesBlank(s)
  {
    var kept := WithoutControl(s);
    var r := Truncated(kept);
    var p := if IsSpace(r[0]) then 0 else |r| - 1;
    assert r[p] == kept[p];
    var i := OriginOf(s, p);
    KeptAround(s, i);
    assert s[i] == ' ' && BlankAtEnd(s, i);
  }

  /** One pass gives an accepted key or the empty string if and only if trimming the key has
      left no blank that dropping control characters or truncating brings to an end. */
  lemma OnePassSufficesIff(key: string)
    ensures Sanitized(key) == "" || Accepted(Sanitized(key)) <==> !ExposesBlank(TrimSpace(key))
  {
    var s := TrimSpace(key);
    assert NoControl(Sanitized(key)) && |Sanitized(key)| <= MAX_KEY_LENGTH;
    if !Trimmed(Sanitized(key)) {
      RejectedIsExposed(s);
    }
    if ExposesBlank(s) {
      var i :| 0 <= i < |s| && s[i] == ' ' && BlankAtEnd(s, i);
      ExposedIsRejected(s, i);
    }
  }

  /** A control character can shield a blank from the first trim. */
  lemma OnePassIsNotEnough(c: char, rest: string)
    requires IsControl(c) && !IsSpace(c) && Accepted(rest)
    ensures Sanitized([c, ' '] + rest) != "" && !Accepted(Sanitized([c, ' '] + rest))
  {
    var key := [c, ' '] + rest;
    assert key[0] == c && key[|key| - 1] == rest[|rest| - 1];
    TrimIsIdentityIff(key);
    assert key[..1] == [c];
    assert [c][..0] == "";
    assert BlankAtEnd(key, 1);
    ExposedIsRejected(key, 1);
  }

  // ---------------------------------------------------------------------------------------
  // Key patterns
  // ---------------------------------------------------------------------------------------

  /** Each part behind its separator. */
  function Joined(separator: string, parts: seq<string>): string {
    if parts == [] then "" else separator + parts[0] + Joined(separator, parts[1..])
  }

  lemma {:induction false} JoinedPush(separator: string, parts: seq<string>, part: string)
    ensures Joined(separator, parts + [part]) == Joined(separator, parts) + (separator + part)
  {
    if parts != [] {
      assert (parts + [part])[1..] == parts[1..] + [part];
      JoinedPush(separator, parts[1..], part);
    }
  }

  class KeyPattern {
    const prefix: string
    const separator: string

    constructor (prefix: string, separator: string)
      ensures this.prefix == prefix
      ensures this.separator == if separator == "" then ":" else separator
    {
      this.prefix := prefix;
      this.separator := if separator == "" then ":" else separator;
    }

    method Build(parts: seq<string>) returns (r: string)
      ensures r == prefix + Joined(separator, parts)
    {
      if parts == [] {
        return prefix;
      }
      r := prefix;
      for i := 0 to |parts|
        invariant r == prefix + Joined(separator, parts[..i])
      {
        r := r + (separator + parts[i]);
        JoinedPush(separator, parts[..i], parts[i]);
        assert parts[..i + 1] == parts[..i] + [parts[i]];
      }
      assert parts[..|parts|] == parts;
    }
  }

  predicate OccursAt(w: string, s: string, i: nat) { i + |w| <= |s| && s[i..i + |w|] == w }

  /** w does not occur in s. */
  predicate Free(w: string, s: string) { forall i: nat | i <= |s| :: !OccursAt(w, s, i) }

  predicate AllFree(w: string, parts: seq<string>) {
    forall i :: 0 <= i < |parts| ==> Free(w, parts[i])
  }

  /** The first n characters of w are also its last n. */
  predicate Border(w: string, n: nat) { 0 < n < |w| && w[..n] == w[|w| - n..] }

  predicate Unbordered(w: string) { forall n: nat | n < |w| :: !Border(w, n) }

  /** Nothing, or a separator and more. */
  predicate Continues(w: string, s: string) { s == "" || w <= s }

  /** In a part followed by a separator, an unbordered separator first occurs after the part. */
  lemma NoEarlyOccurrence(w: string, part: string, rest: string, j: nat)
    requires Unbordered(w) && Free(w, part) && Continues(w, rest)
    requires j < |part|
    ensures !OccursAt(w, part + rest, j)
  {
    var whole := part + rest;
    if j + |w| <= |part| {
      assert !OccursAt(w, part, j);
      assert whole[j..j + |w|] == part[j..j + |w|];
    } else if j + |w| <= |whole| {
      var n := j + |w| - |part|;
      assert !Border(w, n);
      assert whole[j..j + |w|][|w| - n..] == whole[|part|..|part| + n] == rest[..n] == w[..n];
    }
  }

  /** A part ends where the other one does if the wholes agree. */
  lemma PartsEndTogether(w: string, a: string, b: string, s: string, t: string)
    requires w != "" && Unbordered(w) && Free(w, b)
    requires Continues(w, s) && Continues(w, t) && a + s == b + t
    ensures |a| >= |b|
  {
    if |a| < |b| {
      assert s == (a + s)[|a|..];
      assert w == s[..|w|] == (b + t)[|a|..][..|w|];
      NoEarlyOccurrence(w, b, t, |a|);
    }
  }

  lemma JoinedContinues(w: string, parts: seq<string>)
    ensures Continues(w, Joined(w, parts))
  {
  }

  lemma {:induction false} JoinedIsInjective(w: string, a: seq<string>, b: seq<string>)
    requires w != "" && Unbordered(w) && AllFree(w, a) && AllFree(w, b)
    requires Joined(w, a) == Joined(w, b)
    ensures a == b
    decreases |a|
  {
    if a != [] && b != [] {
      var s, t := Joined(w, a[1..]), Joined(w, b[1..]);
      assert a[0] + s == Joined(w, a)[|w|..] && b[0] + t == Joined(w, b)[|w|..];
      JoinedContinues(w, a[1..]);
      JoinedContinues(w, b[1..]);
      PartsEndTogether(w, a[0], b[0], s, t);
      PartsEndTogether(w, b[0], a[0], t, s);
      assert a[0] == (a[0] + s)[..|a[0]|] && b[0] == (b[0] + t)[..|b[0]|];
      assert s == (a[0] + s)[|a[0]|..] && t == (b[0] + t)[|b[0]|..];
      JoinedIsInjective(w, a[1..], b[1..]);
      assert a == [a[0]] + a[1..] && b == [b[0]] + b[1..];
    }
  }

  /** A separator that overlaps itself gives two part lists with one key between them. */
  lemma OverlapCollides(w: string, front: string, middle: string, back: string)
    requires w == front + middle == middle + back
    ensures Joined(w, [front, ""]) == Joined(w, ["", back])
  {
    JoinedOfTwo(w, front, "");
    JoinedOfTwo(w, "", back);
    assert front + (middle + back) == (front + middle) + back;
    assert w + front + w + "" == w + (front + w);
    assert w + "" + w + back == w + (w + back);
  }

  lemma JoinedOfTwo(w: string, first: string, second: string)
    ensures Joined(w, [first, second]) == w + first + w + second
  {
    assert [first, second][1..] == [second] && [second][1..] == [];
    assert Joined(w, [second]) == w + second + "" == w + second;
    assert Joined(w, [first, second]) == w + first + (w + second);
  }

  lemma BorderOverlaps(w: string, n: nat)
    requires Border(w, n)
    ensures w[..|w| - n] + w[..n] == w == w[..n] + w[n..]
  {
    assert w == w[..|w| - n] + w[|w| - n..];
  }

  /** A border gives two different part lists, free of the separator, with one key. */
  lemma BorderCollides(w: string, n: nat) returns (a: seq<string>, b: seq<string>)
    requires Border(w, n)
    ensures a != b && AllFree(w, a) && AllFree(w, b) && Joined(w, a) == Joined(w, b)
  {
    var front, back := w[..|w| - n], w[n..];
    a, b := [front, ""], ["", back];
    BorderOverlaps(w, n);
    OverlapCollides(w, front, w[..n], back);
    assert a[0] != b[0];
  }

  /** Build is injective on part lists whose parts are free of the separator if and only if no
      proper beginning of the separator is also an end of it. */
  lemma BuildIsInjectiveIff(prefix: string, w: string)
    requires w != ""
    ensures Unbordered(w) <==>
              forall a, b :: AllFree(w, a) && AllFree(w, b) && prefix + Joined(w, a) == prefix + Joined(w, b) ==> a == b
  {
    if Unbordered(w) {
      forall a, b | AllFree(w, a) && AllFree(w, b) && prefix + Joined(w, a) == prefix + Joined(w, b)
        ensures a == b
      {
        assert Joined(w, a) == (prefix + Joined(w, a))[|prefix|..];
        assert Joined(w, b) == (prefix + Joined(w, b))[|prefix|..];
        JoinedIsInjective(w, a, b);
      }
    } else {
      var n: nat :| n < |w| && Border(w, n);
      var a, b := BorderCollides(w, n);
    }
  }

  /** In particular a one-character separator makes Build injective on parts without it. */
  lemma BuildIsInjective(prefix: string, c: char, a: seq<string>, b: seq<string>)
    requires forall i :: 0 <= i < |a| ==> c !in a[i]
    requires forall i :: 0 <= i < |b| ==> c !in b[i]
    requires prefix + Joined([c], a) == prefix + Joined([c], b)
    ensures a == b
  {
    assert Unbordered([c]);
    forall s: string, i: nat | c !in s && i < |s|
      ensures !OccursAt([c], s, i)
    {
      assert s[i..i + 1][0] == s[i];
    }
    BuildIsInjectiveIff(prefix, [c]);
  }
}
