/** Object keys: sanitised segments, the dated layout, and parsing a key back. */
module ObjectKey {
  import opened Basics
  import opened Text
  import opened Calendar
  import opened WorkspacePath

  predicate SafeChar(c: char) {
    IsAsciiAlphanumeric(c) || c == '-' || c == '_' || c == '.'
  }

  function SanitizeSegment(s: string): string {
    if s == "" then "_"
    else seq(|s|, i requires 0 <= i < |s| => if SafeChar(s[i]) then s[i] else '_')
  }

  ghost predicate IsSegment(s: string) {
    s != "" && forall i :: 0 <= i < |s| ==> SafeChar(s[i])
  }

  /** Sanitising always gives a segment, and changes nothing exactly when it was given one. */
  lemma SanitizeKeepsSegments(s: string)
    ensures IsSegment(SanitizeSegment(s))
    ensures SanitizeSegment(s) == s <==> IsSegment(s)
    ensures SanitizeSegment(SanitizeSegment(s)) == SanitizeSegment(s)
  {
    var t := SanitizeSegment(s);
    if IsSegment(s) {
      assert forall i :: 0 <= i < |s| ==> t[i] == s[i];
    }
    assert forall i :: 0 <= i < |t| ==> SanitizeSegment(t)[i] == t[i];
  }

  lemma SanitizeKeepsWorkspaceIds(id: string)
    requires ValidWorkspaceId(id)
    ensures SanitizeSegment(id) == id
  {
    SanitizeKeepsSegments(id);
  }

  const NANOS_PER_SECOND: nat := 1_000_000_000

  /** The low 32 bits of the nanosecond clock, as eight hex digits. */
  function Nonce(nanos: nat): string {
    Padded(nanos % 0x1_0000_0000_0000_0000 % 0x1_0000_0000, 8, 16)
  }

  function KeyDate(nanos: nat): string { YmdFromUnix(nanos / NANOS_PER_SECOND) }

  function BuildKey(prefix: string, tenant: string, workspace: string, basename: string, nanos: nat): string {
    prefix + SanitizeSegment(tenant) + "/" + SanitizeSegment(workspace) + "/" + KeyDate(nanos) + "/"
    + Nonce(nanos) + "-" + SanitizeSegment(basename)
  }

  datatype KeyParts = KeyParts(tenant: string, workspace: string, date: string, nonce: string, basename: string)

  predicate AllHex(s: string) { forall i :: 0 <= i < |s| ==> IsHexDigit(s[i]) }

  /** Reads a key back: four pieces after the prefix, the last starting with eight hex digits and a dash. */
  function ParseKey(prefix: string, key: string): Option<KeyParts> {
    if !(prefix <= key) then None
    else
      var pieces := Split(key[|prefix|..]);
      if |pieces| != 4 then None
      else
        var last := pieces[3];
        if |last| < 9 || last[8] != '-' || !AllHex(last[..8]) then None
        else Some(KeyParts(pieces[0], pieces[1], pieces[2], last[..8], last[9..]))
  }

  lemma SegmentHasNoSlash(s: string)
    requires IsSegment(s)
    ensures !HasSlash(s)
  {
    assert forall c :: c in s ==> SafeChar(c);
  }

  lemma DigitNotSlash(d: nat)
    requires d < 16
    ensures Digit(d) != '/'
  {
  }

  lemma {:induction false} NumeralNoSlash(n: nat, base: nat)
    requires 2 <= base <= 16
    ensures !HasSlash(Numeral(n, base))
  {
    if n < base {
      DigitNotSlash(n);
    } else {
      NumeralNoSlash(n / base, base);
      DigitNotSlash(n % base);
    }
  }

  lemma PaddedNoSlash(n: nat, width: nat, base: nat)
    requires 2 <= base <= 16
    ensures !HasSlash(Padded(n, width, base))
  {
    NumeralNoSlash(n, base);
  }

  lemma DateNoSlash(nanos: nat)
    ensures !HasSlash(KeyDate(nanos))
  {
    var days := nanos / NANOS_PER_SECOND / 86400;
    IntermediatesInRange(days);
    CivilIsDayCount(days);
    CountedDatesValid(days);
    var d := CivilFromDays(days);
    PaddedNoSlash(d.year, 4, 10);
    PaddedNoSlash(d.month, 2, 10);
    PaddedNoSlash(d.day, 2, 10);
  }

  lemma {:induction false} FitsHex(n: nat, width: nat, bound: nat)
    requires width <= 8 && bound == [1, 0x10, 0x100, 0x1000, 0x1_0000, 0x10_0000, 0x100_0000, 0x1000_0000, 0x1_0000_0000][width]
    requires n < bound
    ensures Fits(n, width, 16)
  {
    if width > 0 { FitsHex(n / 16, width - 1, bound / 16); }
  }

  lemma NonceIsHex(nanos: nat)
    ensures |Nonce(nanos)| == 8 && AllHex(Nonce(nanos)) && !HasSlash(Nonce(nanos))
    ensures Nonce(nanos) == FixedDigits(nanos % 0x1_0000_0000, 8, 16) && Fits(nanos % 0x1_0000_0000, 8, 16)
  {
    var n := nanos % 0x1_0000_0000_0000_0000 % 0x1_0000_0000;
    assert n == nanos % 0x1_0000_0000;
    FitsHex(n, 8, 0x1_0000_0000);
    PaddedIsFixed(n, 8, 16);
    FixedHex(n, 8);
    PaddedNoSlash(n, 8, 16);
  }

  lemma LastPieceNoSlash(nonce: string, base: string)
    requires !HasSlash(nonce) && !HasSlash(base)
    ensures !HasSlash(nonce + "-" + base)
  {
  }

  lemma SplitTwo(c: string, d: string)
    requires !HasSlash(c) && !HasSlash(d)
    ensures Split(c + "/" + d) == [c, d]
  {
    SplitFirst(c, d);
    SplitNoSlash(d);
  }

  lemma SplitThree(b: string, c: string, d: string)
    requires !HasSlash(b) && !HasSlash(c) && !HasSlash(d)
    ensures Split(b + "/" + (c + "/" + d)) == [b, c, d]
  {
    SplitFirst(b, c + "/" + d);
    SplitTwo(c, d);
  }

  lemma JoinedFour(a: string, b: string, c: string, d: string)
    ensures a + "/" + b + "/" + c + "/" + d == a + "/" + (b + "/" + (c + "/" + d))
  {
  }

  lemma SplitFour(a: string, b: string, c: string, d: string)
    requires !HasSlash(a) && !HasSlash(b) && !HasSlash(c) && !HasSlash(d)
    ensures Split(a + "/" + b + "/" + c + "/" + d) == [a, b, c, d]
  {
    JoinedFour(a, b, c, d);
    SplitFirst(a, b + "/" + (c + "/" + d));
    SplitThree(b, c, d);
  }

  lemma AssembledKeyParses(prefix: string, tail: string, parts: KeyParts)
    requires !HasSlash(parts.tenant) && !HasSlash(parts.workspace) && !HasSlash(parts.date)
    requires !HasSlash(parts.nonce) && !HasSlash(parts.basename)
    requires |parts.nonce| == 8 && AllHex(parts.nonce)
    requires tail == parts.tenant + "/" + parts.workspace + "/" + parts.date + "/"
                     + (parts.nonce + "-" + parts.basename)
    ensures ParseKey(prefix, prefix + tail) == Some(parts)
  {
    var last := parts.nonce + "-" + parts.basename;
    LastPieceNoSlash(parts.nonce, parts.basename);
    SplitFour(parts.tenant, parts.workspace, parts.date, last);
    assert (prefix + tail)[|prefix|..] == tail;
    assert last[..8] == parts.nonce && last[9..] == parts.basename && last[8] == '-';
  }

  /** Every built key parses back to exactly its sanitised parts. */
  lemma KeyRoundTrip(prefix: string, tenant: string, workspace: string, basename: string, nanos: nat)
    ensures ParseKey(prefix, BuildKey(prefix, tenant, workspace, basename, nanos)) ==
              Some(KeyParts(SanitizeSegment(tenant), SanitizeSegment(workspace), KeyDate(nanos), Nonce(nanos),
                            SanitizeSegment(basename)))
    ensures |Nonce(nanos)| == 8 && AllHex(Nonce(nanos))
  {
    var t, w, b := SanitizeSegment(tenant), SanitizeSegment(workspace), SanitizeSegment(basename);
    SanitizeKeepsSegments(tenant);
    SanitizeKeepsSegments(workspace);
    SanitizeKeepsSegments(basename);
    SegmentHasNoSlash(t);
    SegmentHasNoSlash(w);
    SegmentHasNoSlash(b);
    DateNoSlash(nanos);
    NonceIsHex(nanos);
    KeyIsAssembled(prefix, t, w, KeyDate(nanos), Nonce(nanos), b);
    AssembledKeyParses(prefix, t + "/" + w + "/" + KeyDate(nanos) + "/" + (Nonce(nanos) + "-" + b),
                       KeyParts(t, w, KeyDate(nanos), Nonce(nanos), b));
  }

  lemma KeyIsAssembled(prefix: string, t: string, w: string, date: string, nonce: string, b: string)
    ensures prefix + t + "/" + w + "/" + date + "/" + nonce + "-" + b ==
              prefix + (t + "/" + w + "/" + date + "/" + (nonce + "-" + b))
  {
  }

  /** What sanitising makes of a segment, character by character. */
  ghost predicate IsSanitized(t: string, s: string) {
    && (s == "" ==> t == "_")
    && (s != "" ==> |t| == |s|)
    && forall i :: 0 <= i < |s| ==>
         var c := s[i] as int;
         t[i] == if 48 <= c <= 57 || 65 <= c <= 90 || 97 <= c <= 122 || c == 45 || c == 46 || c == 95 then s[i] else '_'
  }

  lemma SanitizedIs(s: string)
    ensures IsSanitized(SanitizeSegment(s), s)
  {
    assert '-' as int == 45 && '.' as int == 46 && '_' as int == 95;
  }

  /**
   * What a reader finds in a key: the sanitised names, the day that the clock's seconds are counted to, and the low
   * 32 bits of its nanoseconds.
   */
  lemma KeyTells(prefix: string, tenant: string, workspace: string, basename: string, nanos: nat)
    returns (year: string, month: string, day: string)
    ensures var parsed := ParseKey(prefix, BuildKey(prefix, tenant, workspace, basename, nanos));
            && parsed.Some?
            && IsSanitized(parsed.value.tenant, tenant) && IsSanitized(parsed.value.workspace, workspace)
            && IsSanitized(parsed.value.basename, basename)
            && parsed.value.date == year + "-" + month + "-" + day
            && |parsed.value.nonce| == 8 && ValueOf(parsed.value.nonce, 16) == nanos % 0x1_0000_0000
    ensures |year| >= 4 && |month| == |day| == 2
    ensures DateAfter(nanos / 86_400_000_000_000) == Date(ValueOf(year, 10), ValueOf(month, 10), ValueOf(day, 10))
  {
    KeyRoundTrip(prefix, tenant, workspace, basename, nanos);
    SanitizedIs(tenant);
    SanitizedIs(workspace);
    SanitizedIs(basename);
    year, month, day := KeyDateTells(nanos);
    NonceTells(nanos);
  }

  lemma NonceTells(nanos: nat)
    ensures ValueOf(Nonce(nanos), 16) == nanos % 0x1_0000_0000
  {
    NonceIsHex(nanos);
    FixedHexValue(nanos % 0x1_0000_0000, 8);
  }

  lemma FixedHexValue(n: nat, width: nat)
    requires width >= 1 && Fits(n, width, 16)
    ensures ValueOf(FixedDigits(n, width, 16), 16) == n
  {
    PaddedIsFixed(n, width, 16);
    PaddedValue(n, width, 16);
  }

  lemma DaysOfNanos(nanos: nat)
    ensures nanos / NANOS_PER_SECOND / 86400 == nanos / 86_400_000_000_000
  {
  }

  lemma KeyDateTells(nanos: nat) returns (year: string, month: string, day: string)
    ensures KeyDate(nanos) == year + "-" + month + "-" + day
    ensures |year| >= 4 && |month| == |day| == 2
    ensures DateAfter(nanos / 86_400_000_000_000) == Date(ValueOf(year, 10), ValueOf(month, 10), ValueOf(day, 10))
  {
    DaysOfNanos(nanos);
    year, month, day := DateTextReads(nanos / NANOS_PER_SECOND);
  }

  /** Two keys under one prefix coincide exactly when every sanitised part, the date and the low clock bits do. */
  lemma KeysCoincide(prefix: string, tenant: string, workspace: string, basename: string, nanos: nat,
                     tenant': string, workspace': string, basename': string, nanos': nat)
    ensures BuildKey(prefix, tenant, workspace, basename, nanos) == BuildKey(prefix, tenant', workspace', basename', nanos')
       <==> && SanitizeSegment(tenant) == SanitizeSegment(tenant')
            && SanitizeSegment(workspace) == SanitizeSegment(workspace')
            && SanitizeSegment(basename) == SanitizeSegment(basename')
            && KeyDate(nanos) == KeyDate(nanos')
            && nanos % 0x1_0000_0000 == nanos' % 0x1_0000_0000
  {
    KeyRoundTrip(prefix, tenant, workspace, basename, nanos);
    KeyRoundTrip(prefix, tenant', workspace', basename', nanos');
    NonceIsHex(nanos);
    NonceIsHex(nanos');
    if Nonce(nanos) == Nonce(nanos') {
      FixedHexInjective(nanos % 0x1_0000_0000, nanos' % 0x1_0000_0000, 8);
    }
  }

  /** Different workspaces never share a key. */
  lemma WorkspacesNeverShareKeys(prefix: string, tenant: string, workspace: string, basename: string, nanos: nat,
                                 tenant': string, workspace': string, basename': string, nanos': nat)
    requires ValidWorkspaceId(workspace) && ValidWorkspaceId(workspace') && workspace != workspace'
    ensures BuildKey(prefix, tenant, workspace, basename, nanos) != BuildKey(prefix, tenant', workspace', basename', nanos')
  {
    KeysCoincide(prefix, tenant, workspace, basename, nanos, tenant', workspace', basename', nanos');
    SanitizeKeepsWorkspaceIds(workspace);
    SanitizeKeepsWorkspaceIds(workspace');
  }

  /** Tenant ids are not validated, so distinct tenants can share a key within one workspace. */
  lemma TenantsCanShareKeys(prefix: string, workspace: string, basename: string, nanos: nat)
    ensures BuildKey(prefix, "a/b", workspace, basename, nanos) == BuildKey(prefix, "a_b", workspace, basename, nanos)
  {
    assert SanitizeSegment("a/b") == "a_b" == SanitizeSegment("a_b");
  }
}
