/** Printing and parsing of permission bits (src/perm/bc_io_perm.c:10-169). */
module Permissions {
  import opened Bytes

  type mode_t = bv32

  const S_IFMT: mode_t := 0xF000
  const S_ISUID: mode_t := 0x800
  const S_ISGID: mode_t := 0x400
  const S_ISVTX: mode_t := 0x200
  const S_IRUSR: mode_t := 0x100
  const S_IWUSR: mode_t := 0x080
  const S_IXUSR: mode_t := 0x040
  const S_IRGRP: mode_t := 0x020
  const S_IWGRP: mode_t := 0x010
  const S_IXGRP: mode_t := 0x008
  const S_IROTH: mode_t := 0x004
  const S_IWOTH: mode_t := 0x002
  const S_IXOTH: mode_t := 0x001

  /** The twelve bits that both notations carry. */
  const PERMISSION_BITS: mode_t := 0xFFF

  // ---------- human-readable form ----------

  function FileTypeChar(mode: mode_t): char {
    var t := mode & S_IFMT;
    if t == 0x8000 then '-'
    else if t == 0x4000 then 'd'
    else if t == 0xA000 then 'l'
    else if t == 0x2000 then 'c'
    else if t == 0x6000 then 'b'
    else if t == 0x1000 then 'p'
    else if t == 0xC000 then 's'
    else '?'
  }

  /** The four bits of a mode that one rwx triple shows. */
  datatype Triple = Triple(read: bool, write: bool, exec: bool, special: bool)

  function UserBits(mode: mode_t): Triple {
    Triple(mode & S_IRUSR != 0, mode & S_IWUSR != 0, mode & S_IXUSR != 0, mode & S_ISUID != 0)
  }

  function GroupBits(mode: mode_t): Triple {
    Triple(mode & S_IRGRP != 0, mode & S_IWGRP != 0, mode & S_IXGRP != 0, mode & S_ISGID != 0)
  }

  function OtherBits(mode: mode_t): Triple {
    Triple(mode & S_IROTH != 0, mode & S_IWOTH != 0, mode & S_IXOTH != 0, mode & S_ISVTX != 0)
  }

  /** A triple in characters; `s` and `S` stand for the special bit with and without execution. */
  function TripleChars(t: Triple, s: char, S: char): string {
    [if t.read then 'r' else '-',
     if t.write then 'w' else '-',
     if t.special then (if t.exec then s else S) else (if t.exec then 'x' else '-')]
  }

  /** The nine rwx characters of a mode. */
  function RwxChars(mode: mode_t): string {
    TripleChars(UserBits(mode), 's', 'S') + TripleChars(GroupBits(mode), 's', 'S') + TripleChars(OtherBits(mode), 't', 'T')
  }

  function HumanForm(mode: mode_t): string {
    [FileTypeChar(mode)] + RwxChars(mode)
  }

  method WriteTriple(output: array<char>, at: nat, t: Triple, s: char, S: char)
    requires at + 3 <= output.Length
    modifies output
    ensures output[at..at + 3] == TripleChars(t, s, S)
    ensures forall i :: 0 <= i < at || at + 3 <= i < output.Length ==> output[i] == old(output[i])
  {
    output[at] := if t.read then 'r' else '-';
    output[at + 1] := if t.write then 'w' else '-';
    if t.special {
      output[at + 2] := if t.exec then s else S;
    } else {
      output[at + 2] := if t.exec then 'x' else '-';
    }
  }

  method WriteHuman(output: array<char>, fileType: char, user: Triple, group: Triple, other: Triple)
    requires output.Length >= 10
    modifies output
    ensures output[..10]
         == [fileType] + (TripleChars(user, 's', 'S') + TripleChars(group, 's', 'S') + TripleChars(other, 't', 'T'))
    ensures forall i :: 10 <= i < output.Length ==> output[i] == old(output[i])
  {
    output[0] := fileType;
    WriteTriple(output, 1, user, 's', 'S');
    WriteTriple(output, 4, group, 's', 'S');
    WriteTriple(output, 7, other, 't', 'T');
    assert output[..10] == [output[0]] + (output[1..4] + output[4..7] + output[7..10]);
  }

  method FormatModeHuman(mode: mode_t, output: array<char>) returns (ok: bool, length: nat)
    modifies output
    ensures ok <==> output.Length >= 10
    ensures ok ==> length == 10 && output[..10] == HumanForm(mode)
    ensures forall i :: (if ok then 10 else 0) <= i < output.Length ==> output[i] == old(output[i])
  {
    if output.Length < 10 {
      return false, 0;
    }
    WriteHuman(output, FileTypeChar(mode), UserBits(mode), GroupBits(mode), OtherBits(mode));
    return true, 10;
  }

  /** Reads one rwx triple. */
  function ParseTriple(c0: char, c1: char, c2: char, s: char, S: char): Option<Triple> {
    if (c0 != 'r' && c0 != '-') || (c1 != 'w' && c1 != '-') then None
    else if c2 == 'x' then Some(Triple(c0 == 'r', c1 == 'w', true, false))
    else if c2 == '-' then Some(Triple(c0 == 'r', c1 == 'w', false, false))
    else if c2 == s then Some(Triple(c0 == 'r', c1 == 'w', true, true))
    else if c2 == S then Some(Triple(c0 == 'r', c1 == 'w', false, true))
    else None
  }

  /** The bits a triple stands for. */
  function TripleMask(t: Triple, read: mode_t, write: mode_t, exec: mode_t, special: mode_t): mode_t {
    (if t.read then read else 0) | (if t.write then write else 0)
    | (if t.exec then exec else 0) | (if t.special then special else 0)
  }

  function UserMask(t: Triple): mode_t {
    TripleMask(t, S_IRUSR, S_IWUSR, S_IXUSR, S_ISUID)
  }

  function GroupMask(t: Triple): mode_t {
    TripleMask(t, S_IRGRP, S_IWGRP, S_IXGRP, S_ISGID)
  }

  function OtherMask(t: Triple): mode_t {
    TripleMask(t, S_IROTH, S_IWOTH, S_IXOTH, S_ISVTX)
  }

  /** The three triples accumulated. */
  function Assemble(user: Triple, group: Triple, other: Triple): mode_t {
    UserMask(user) | GroupMask(group) | OtherMask(other)
  }

  function ParseTriples(rwx: string): Option<(Triple, Triple, Triple)>
    requires |rwx| == 9
  {
    var user := ParseTriple(rwx[0], rwx[1], rwx[2], 's', 'S');
    var group := ParseTriple(rwx[3], rwx[4], rwx[5], 's', 'S');
    var other := ParseTriple(rwx[6], rwx[7], rwx[8], 't', 'T');
    if user.None? || group.None? || other.None? then None else Some((user.value, group.value, other.value))
  }

  predicate IsFileTypeChar(c: char) {
    c == '-' || c == 'd' || c == 'l' || c == 'c' || c == 'b' || c == 'p' || c == 's' || c == '?'
  }

  /** The nine characters that carry the permissions, when the length and the type character are right. */
  function RwxPart(input: string): Option<string> {
    if |input| == 9 then Some(input)
    else if |input| == 10 && IsFileTypeChar(input[0]) then Some(input[1..])
    else None
  }

  function ParseModeHuman(input: string): Option<mode_t> {
    match RwxPart(input)
    case None => None
    case Some(rwx) =>
      match ParseTriples(rwx)
      case None => None
      case Some((user, group, other)) => Some(Assemble(user, group, other))
  }

  /** The four bits of a mode that hold its file type. */
  function TypeNumber(mode: mode_t): mode_t {
    (mode >> 12) & 0xF
  }

  /** Every mode of a type, whatever its other 28 bits, is shown by the character of that type. */
  lemma KnownTypes(mode: mode_t)
    ensures FileTypeChar(mode) == '-' <==> TypeNumber(mode) == 8
    ensures FileTypeChar(mode) == 'd' <==> TypeNumber(mode) == 4
    ensures FileTypeChar(mode) == 'l' <==> TypeNumber(mode) == 10
    ensures FileTypeChar(mode) == 'c' <==> TypeNumber(mode) == 2
    ensures FileTypeChar(mode) == 'b' <==> TypeNumber(mode) == 6
    ensures FileTypeChar(mode) == 'p' <==> TypeNumber(mode) == 1
    ensures FileTypeChar(mode) == 's' <==> TypeNumber(mode) == 12
    ensures FileTypeChar(mode) == '?' <==> TypeNumber(mode) !in {1, 2, 4, 6, 8, 10, 12}
  {
    assert mode & S_IFMT == TypeNumber(mode) << 12;
  }

  /** Some modes and their forms, which fix the characters the round trips leave open. */
  lemma KnownUserForms()
    ensures RwxChars(0x1ED) == "rwxr-xr-x" && RwxChars(0x1C0) == "rwx------"
    ensures RwxChars(0x964) == "r-sr--r--" && RwxChars(0x924) == "r-Sr--r--"
  {
  }

  lemma KnownGroupAndOtherForms()
    ensures RwxChars(0x52C) == "r--r-sr--" && RwxChars(0x524) == "r--r-Sr--"
    ensures RwxChars(0x3FF) == "rwxrwxrwt" && RwxChars(0x3F8) == "rwxrwx--T"
  {
  }

  // ---------- human-readable form: round trips ----------

  lemma TripleRoundTrip(t: Triple, s: char, S: char)
    requires s != S && s != 'x' && s != '-' && S != 'x' && S != '-'
    ensures var c := TripleChars(t, s, S); ParseTriple(c[0], c[1], c[2], s, S) == Some(t)
  {
  }

  /** A triple that can be read is printed with the same characters. */
  lemma TripleReprints(c0: char, c1: char, c2: char, s: char, S: char)
    requires ParseTriple(c0, c1, c2, s, S).Some?
    ensures TripleChars(ParseTriple(c0, c1, c2, s, S).value, s, S) == [c0, c1, c2]
  {
  }

  const USER_BITS: mode_t := 0x9C0
  const GROUP_BITS: mode_t := 0x438
  const OTHER_BITS: mode_t := 0x207

  lemma MasksOfMode(mode: mode_t)
    ensures UserMask(UserBits(mode)) == mode & USER_BITS
    ensures GroupMask(GroupBits(mode)) == mode & GROUP_BITS
    ensures OtherMask(OtherBits(mode)) == mode & OTHER_BITS
  {
  }

  lemma PartitionOfBits(mode: mode_t)
    ensures (mode & USER_BITS) | (mode & GROUP_BITS) | (mode & OTHER_BITS) == mode & PERMISSION_BITS
  {
  }

  /** Assembling the bits of a mode keeps its twelve permission bits and drops the others. */
  lemma AssembleBits(mode: mode_t)
    ensures Assemble(UserBits(mode), GroupBits(mode), OtherBits(mode)) == mode & PERMISSION_BITS
  {
    MasksOfMode(mode);
    PartitionOfBits(mode);
  }

  lemma BitsOfMasks(t: Triple)
    ensures UserBits(UserMask(t)) == t && UserMask(t) & USER_BITS == UserMask(t)
    ensures GroupBits(GroupMask(t)) == t && GroupMask(t) & GROUP_BITS == GroupMask(t)
    ensures OtherBits(OtherMask(t)) == t && OtherMask(t) & OTHER_BITS == OtherMask(t)
  {
  }

  lemma ForeignBitsDoNotMatter(u: mode_t, g: mode_t, o: mode_t)
    requires u & USER_BITS == u && g & GROUP_BITS == g && o & OTHER_BITS == o
    ensures UserBits(u | g | o) == UserBits(u)
    ensures GroupBits(u | g | o) == GroupBits(g)
    ensures OtherBits(u | g | o) == OtherBits(o)
  {
  }

  lemma UnionIsPermission(u: mode_t, g: mode_t, o: mode_t)
    requires u & USER_BITS == u && g & GROUP_BITS == g && o & OTHER_BITS == o
    ensures (u | g | o) & PERMISSION_BITS == u | g | o
  {
  }

  /** Assembled bits can be taken apart again. */
  lemma BitsOfAssembled(user: Triple, group: Triple, other: Triple)
    ensures var mode := Assemble(user, group, other);
            UserBits(mode) == user && GroupBits(mode) == group && OtherBits(mode) == other
  {
    hide TripleMask, UserMask, GroupMask, OtherMask, UserBits, GroupBits, OtherBits;
    BitsOfMasks(user);
    BitsOfMasks(group);
    BitsOfMasks(other);
    ForeignBitsDoNotMatter(UserMask(user), GroupMask(group), OtherMask(other));
  }

  /** What is assembled from triples has permission bits only. */
  lemma AssembledIsPermission(user: Triple, group: Triple, other: Triple)
    ensures Assemble(user, group, other) & PERMISSION_BITS == Assemble(user, group, other)
  {
    hide TripleMask, UserMask, GroupMask, OtherMask, UserBits, GroupBits, OtherBits;
    BitsOfMasks(user);
    BitsOfMasks(group);
    BitsOfMasks(other);
    UnionIsPermission(UserMask(user), GroupMask(group), OtherMask(other));
  }

  /** Parsing what was printed, with or without the type character, gives back the twelve permission bits. */
  lemma HumanRoundTrip(mode: mode_t)
    ensures ParseModeHuman(HumanForm(mode)) == Some(mode & PERMISSION_BITS)
    ensures ParseModeHuman(RwxChars(mode)) == Some(mode & PERMISSION_BITS)
  {
    var rwx := RwxChars(mode);
    TripleRoundTrip(UserBits(mode), 's', 'S');
    TripleRoundTrip(GroupBits(mode), 's', 'S');
    TripleRoundTrip(OtherBits(mode), 't', 'T');
    AssembleBits(mode);
    assert HumanForm(mode)[1..] == rwx;
    assert ParseTriples(rwx) == Some((UserBits(mode), GroupBits(mode), OtherBits(mode)));
  }

  /** The nine characters from `at` on are what an rwx form may consist of. */
  predicate RwxAllowed(input: string, at: nat)
    requires at + 9 <= |input|
  {
    && input[at] in {'r', '-'} && input[at + 1] in {'w', '-'} && input[at + 2] in {'x', '-', 's', 'S'}
    && input[at + 3] in {'r', '-'} && input[at + 4] in {'w', '-'} && input[at + 5] in {'x', '-', 's', 'S'}
    && input[at + 6] in {'r', '-'} && input[at + 7] in {'w', '-'} && input[at + 8] in {'x', '-', 't', 'T'}
  }

  /** Exactly these strings are parsed: nine allowed characters, or a type character and nine allowed ones. */
  lemma HumanAccepts(input: string)
    ensures ParseModeHuman(input).Some? <==>
              || (|input| == 9 && RwxAllowed(input, 0))
              || (|input| == 10 && input[0] in {'-', 'd', 'l', 'c', 'b', 'p', 's', '?'} && RwxAllowed(input, 1))
  {
  }

  /** Printing what was parsed gives back the nine rwx characters. */
  lemma HumanReprints(input: string)
    requires ParseModeHuman(input).Some?
    ensures |input| >= 9 && RwxChars(ParseModeHuman(input).value) == input[|input| - 9..]
    ensures ParseModeHuman(input).value & PERMISSION_BITS == ParseModeHuman(input).value
  {
    hide UserBits, GroupBits, OtherBits, UserMask, GroupMask, OtherMask;
    var rwx := RwxPart(input).value;
    var (user, group, other) := ParseTriples(rwx).value;
    BitsOfAssembled(user, group, other);
    AssembledIsPermission(user, group, other);
    TripleReprints(rwx[0], rwx[1], rwx[2], 's', 'S');
    TripleReprints(rwx[3], rwx[4], rwx[5], 's', 'S');
    TripleReprints(rwx[6], rwx[7], rwx[8], 't', 'T');
    assert rwx == [rwx[0], rwx[1], rwx[2]] + [rwx[3], rwx[4], rwx[5]] + [rwx[6], rwx[7], rwx[8]];
  }

  lemma PermissionHasNoType(mode: mode_t)
    requires mode & PERMISSION_BITS == mode
    ensures FileTypeChar(mode) == '?'
  {
  }

  /** Printing what was parsed gives back the whole input exactly when it had ten characters and the type '?'. */
  lemma HumanReprintsWhole(input: string)
    requires ParseModeHuman(input).Some?
    ensures HumanForm(ParseModeHuman(input).value) == input <==> |input| == 10 && input[0] == '?'
  {
    HumanReprints(input);
    PermissionHasNoType(ParseModeHuman(input).value);
    if |input| == 10 {
      assert input == [input[0]] + input[1..];
    }
  }

  // ---------- octal form ----------

  /** The character `'0' + d`. */
  function Digit(d: mode_t): char {
    if d == 0 then '0' else if d == 1 then '1' else if d == 2 then '2' else if d == 3 then '3'
    else if d == 4 then '4' else if d == 5 then '5' else if d == 6 then '6' else '7'
  }

  predicate IsOctalDigit(c: char) {
    '0' <= c <= '7'
  }

  /** The difference `c - '0'` of an octal digit. */
  function DigitValue(c: char): mode_t {
    if c == '0' then 0 else if c == '1' then 1 else if c == '2' then 2 else if c == '3' then 3
    else if c == '4' then 4 else if c == '5' then 5 else if c == '6' then 6 else 7
  }

  function OctalForm(mode: mode_t): string {
    [Digit(((mode & (S_ISUID | S_ISGID | S_ISVTX)) >> 9) & 7), Digit((mode >> 6) & 7), Digit((mode >> 3) & 7), Digit(mode & 7)]
  }

  method FormatModeOctal(mode: mode_t, output: array<char>) returns (ok: bool, length: nat)
    modifies output
    ensures ok <==> output.Length >= 4
    ensures ok ==> length == 4 && output[..4] == OctalForm(mode)
    ensures forall i :: (if ok then 4 else 0) <= i < output.Length ==> output[i] == old(output[i])
  {
    if output.Length < 4 {
      return false, 0;
    }
    var special := (mode & (S_ISUID | S_ISGID | S_ISVTX)) >> 9;
    output[0] := Digit(special & 7);
    output[1] := Digit((mode >> 6) & 7);
    output[2] := Digit((mode >> 3) & 7);
    output[3] := Digit(mode & 7);
    return true, 4;
  }

  /** One more octal digit at the end. */
  function PushDigit(w: mode_t, d: mode_t): mode_t {
    (w << 3) | d
  }

  /** The digits read so far, as the parse loop accumulates them. */
  function OctalValue(input: string): mode_t {
    if input == [] then 0
    else PushDigit(OctalValue(input[..|input| - 1]), DigitValue(input[|input| - 1]))
  }

  /** Four digits: the first one is spread over the three special bits. */
  function SpreadSpecial(result: mode_t): mode_t {
    var special := (result >> 9) & 7;
    (result & 0x1FF)
    | (if special & 4 != 0 then S_ISUID else 0)
    | (if special & 2 != 0 then S_ISGID else 0)
    | (if special & 1 != 0 then S_ISVTX else 0)
  }

  ghost predicate IsOctalForm(input: string) {
    1 <= |input| <= 4 && forall i :: 0 <= i < |input| ==> IsOctalDigit(input[i])
  }

  ghost function ParsedOctal(input: string): Option<mode_t> {
    if !IsOctalForm(input) then None
    else if |input| == 4 then Some(SpreadSpecial(OctalValue(input)))
    else Some(OctalValue(input))
  }

  method ParseModeOctal(input: string) returns (mode: Option<mode_t>)
    ensures mode == ParsedOctal(input)
    ensures mode.Some? <==> 1 <= |input| <= 4 && forall i :: 0 <= i < |input| ==> '0' <= input[i] <= '7'
  {
    if |input| == 0 || |input| > 4 {
      return None;
    }
    var result: mode_t := 0;
    var index := 0;
    while index < |input|
      invariant 0 <= index <= |input|
      invariant forall i :: 0 <= i < index ==> IsOctalDigit(input[i])
      invariant result == OctalValue(input[..index])
    {
      var c := input[index];
      if c < '0' || c > '7' {
        return None;
      }
      assert input[..index + 1][..index] == input[..index];
      result := (result << 3) | DigitValue(c);
      index := index + 1;
    }
    assert input[..index] == input;
    if |input| == 4 {
      return Some(SpreadSpecial(result));
    }
    return Some(result);
  }

  lemma KnownOctalForms()
    ensures OctalForm(0x1A4) == "0644" && OctalForm(0x9ED) == "4755" && OctalForm(0x3FF) == "1777"
  {
  }

  // ---------- octal form: round trips ----------

  lemma DigitRoundTrip(d: mode_t)
    requires d < 8
    ensures IsOctalDigit(Digit(d)) && DigitValue(Digit(d)) == d
  {
  }

  lemma DigitReprints(c: char)
    requires IsOctalDigit(c)
    ensures DigitValue(c) < 8 && Digit(DigitValue(c)) == c
  {
  }

  /** Four octal digits packed into a word. */
  function Packed(a: mode_t, b: mode_t, c: mode_t, d: mode_t): mode_t {
    PushDigit(PushDigit(PushDigit(a, b), c), d)
  }

  lemma OctalStep(input: string)
    requires input != []
    ensures OctalValue(input) == PushDigit(OctalValue(input[..|input| - 1]), DigitValue(input[|input| - 1]))
  {
  }

  lemma OctalValueOfOne(c: char)
    ensures OctalValue([c]) == DigitValue(c)
  {
    assert [c][..0] == [];
  }

  lemma OctalValueOfFour(input: string)
    requires |input| == 4
    ensures OctalValue(input)
         == Packed(DigitValue(input[0]), DigitValue(input[1]), DigitValue(input[2]), DigitValue(input[3]))
  {
    hide DigitValue, OctalValue, PushDigit;
    var three, two := input[..3], input[..2];
    OctalStep(input);
    OctalStep(three);
    OctalStep(two);
    OctalValueOfOne(input[0]);
    assert three[..2] == two && two[..1] == [input[0]];
  }

  /** Leading zeros do not change the value. */
  lemma {:induction false} LeadingZero(input: string)
    ensures OctalValue(['0'] + input) == OctalValue(input)
  {
    if input == [] {
      assert ['0'] + input == ['0'] && ['0'][..0] == [];
    } else {
      assert (['0'] + input)[..|input|] == ['0'] + input[..|input| - 1];
      LeadingZero(input[..|input| - 1]);
    }
  }

  lemma UnpackDigits(a: mode_t, b: mode_t, c: mode_t, d: mode_t)
    requires a < 8 && b < 8 && c < 8 && d < 8
    ensures var w := Packed(a, b, c, d);
            ((w & (S_ISUID | S_ISGID | S_ISVTX)) >> 9) & 7 == a && (w >> 6) & 7 == b && (w >> 3) & 7 == c && w & 7 == d
  {
  }

  lemma PackedIsPermission(a: mode_t, b: mode_t, c: mode_t, d: mode_t)
    requires a < 8 && b < 8 && c < 8 && d < 8
    ensures Packed(a, b, c, d) & PERMISSION_BITS == Packed(a, b, c, d)
  {
  }

  lemma SpreadIsIdentity(w: mode_t)
    requires w & PERMISSION_BITS == w
    ensures SpreadSpecial(w) == w
  {
  }

  lemma UnpackPacked(a: mode_t, b: mode_t, c: mode_t, d: mode_t)
    requires a < 8 && b < 8 && c < 8 && d < 8
    ensures var w := Packed(a, b, c, d);
            && ((w & (S_ISUID | S_ISGID | S_ISVTX)) >> 9) & 7 == a && (w >> 6) & 7 == b && (w >> 3) & 7 == c && w & 7 == d
            && SpreadSpecial(w) == w
  {
    hide Packed, SpreadSpecial;
    UnpackDigits(a, b, c, d);
    PackedIsPermission(a, b, c, d);
    SpreadIsIdentity(Packed(a, b, c, d));
  }

  lemma PackDigits(mode: mode_t)
    ensures Packed(((mode & (S_ISUID | S_ISGID | S_ISVTX)) >> 9) & 7, (mode >> 6) & 7, (mode >> 3) & 7, mode & 7)
         == mode & PERMISSION_BITS
  {
  }

  lemma DigitsAreSmall(mode: mode_t)
    ensures mode & 7 < 8
  {
  }

  /** Parsing what was printed in octal gives back the twelve permission bits. */
  lemma OctalRoundTrip(mode: mode_t)
    ensures ParsedOctal(OctalForm(mode)) == Some(mode & PERMISSION_BITS)
  {
    hide Packed, SpreadSpecial, Digit, DigitValue;
    var a, b, c, d := ((mode & (S_ISUID | S_ISGID | S_ISVTX)) >> 9) & 7, (mode >> 6) & 7, (mode >> 3) & 7, mode & 7;
    DigitsAreSmall((mode & (S_ISUID | S_ISGID | S_ISVTX)) >> 9);
    DigitsAreSmall(mode >> 6);
    DigitsAreSmall(mode >> 3);
    DigitsAreSmall(mode);
    DigitRoundTrip(a);
    DigitRoundTrip(b);
    DigitRoundTrip(c);
    DigitRoundTrip(d);
    OctalValueOfFour(OctalForm(mode));
    PackDigits(mode);
    UnpackPacked(a, b, c, d);
  }

  /** The input padded with zeros to four digits. */
  function Padded(input: string): string
    requires |input| <= 4
    decreases 4 - |input|
  {
    if |input| == 4 then input else Padded(['0'] + input)
  }

  /** Printing what was parsed gives the input padded with zeros to four digits. */
  lemma {:induction false} OctalReprints(input: string)
    requires IsOctalForm(input)
    ensures OctalForm(ParsedOctal(input).value) == Padded(input)
    decreases 4 - |input|
  {
    if |input| == 4 {
      FourDigitsReprint(input);
    } else {
      LeadingZero(input);
      OctalReprints(['0'] + input);
      ShortOctalIsUnspread(input);
    }
  }

  lemma FourDigitsReprint(input: string)
    requires IsOctalForm(input) && |input| == 4
    ensures OctalForm(SpreadSpecial(OctalValue(input))) == input
    ensures SpreadSpecial(OctalValue(input)) == OctalValue(input)
  {
    hide Packed, SpreadSpecial, Digit, DigitValue;
    DigitReprints(input[0]);
    DigitReprints(input[1]);
    DigitReprints(input[2]);
    DigitReprints(input[3]);
    OctalValueOfFour(input);
    UnpackPacked(DigitValue(input[0]), DigitValue(input[1]), DigitValue(input[2]), DigitValue(input[3]));
  }

  /** With fewer than four digits the special bits are zero, so spreading them changes nothing. */
  lemma ShortOctalIsUnspread(input: string)
    requires IsOctalForm(input) && |input| < 4
    ensures ParsedOctal(['0'] + input).value == ParsedOctal(input).value
  {
    LeadingZero(input);
    if |input| == 3 {
      FourDigitsReprint(['0'] + input);
    }
  }
}
