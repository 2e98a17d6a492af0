/** Short and long names in directory entries (middleware/fat.c). */
module DirNames {
  import opened Arithmetic
  import opened Words

  const SPACE: u8 := 32
  const DOT: u8 := 46
  const ENTRY := 32
  const ATTRIB := 11
  const ATTRIB_LONG_NAME: u8 := 15

  /** The number of bytes of s before the first b. */
  function Before(s: seq<u8>, b: u8): (n: nat)
    ensures n <= |s| && (forall i :: 0 <= i < n ==> s[i] != b) && (n < |s| ==> s[n] == b)
  {
    if |s| == 0 || s[0] == b then 0 else 1 + Before(s[1..], b)
  }

  lemma BeforeIs(s: seq<u8>, b: u8, n: nat)
    requires n <= |s| && (forall i :: 0 <= i < n ==> s[i] != b) && (n < |s| ==> s[n] == b)
    ensures Before(s, b) == n
  {
  }

  /** The first n bytes of s, filled up with spaces. */
  function Pad(s: seq<u8>, n: nat): (r: seq<u8>)
    ensures |r| == n && forall i :: 0 <= i < n ==> r[i] == if i < |s| then s[i] else SPACE
  {
    seq(n, i requires 0 <= i < n => if i < |s| then s[i] else SPACE)
  }

  /** What stands before the dot of a name, as far as there is room for it. */
  function BaseLength(name: seq<u8>): (n: nat)
    ensures n <= |name|
  {
    Min(Before(name, DOT), 8)
  }

  /** The Name and Extension fields for a file name. */
  function Fields(name: seq<u8>): (r: (seq<u8>, seq<u8>))
    ensures |r.0| == 8 && |r.1| == 3
  {
    if name == [DOT] || name == [DOT, DOT] then (Pad(name, 8), Pad([], 3))
    else
      var n := BaseLength(name);
      (Pad(name[..n], 8), Pad(if n < |name| then name[n + 1..] else [], 3))
  }

  /** The fields of a name that is split by its first dot. */
  lemma FieldsOfDotted(base: seq<u8>, ext: seq<u8>)
    requires |base| <= 8 && 46 !in base && !(base == [] && (ext == [] || ext == [46]))
    ensures var (b, x) := Fields(base + [46] + ext);
            && (forall i :: 0 <= i < 8 ==> b[i] == if i < |base| then base[i] else 32)
            && (forall i :: 0 <= i < 3 ==> x[i] == if i < |ext| then ext[i] else 32)
  {
    var name := base + [46] + ext;
    BeforeIs(name, DOT, |base|);
    assert name[..|base|] == base && name[|base| + 1..] == ext;
    if |base| > 0 {
      assert name[0] == base[0];
    }
  }

  /** The fields of a name without a dot among its first eight bytes; the ninth byte is dropped, whatever it is. */
  lemma FieldsOfLong(name: seq<u8>)
    requires forall i :: 0 <= i < 8 && i < |name| ==> name[i] != 46
    ensures var (b, x) := Fields(name);
            && (forall i :: 0 <= i < 8 ==> b[i] == if i < |name| then name[i] else 32)
            && (forall i :: 0 <= i < 3 ==> x[i] == if 9 + i < |name| then name[9 + i] else 32)
  {
    var n := Before(name, DOT);
    assert n >= 8 || n == |name|;
  }

  /** The file name that two fields stand for. */
  function NameOf(base: seq<u8>, ext: seq<u8>): seq<u8> {
    var e := ext[..Before(ext, SPACE)];
    base[..Before(base, SPACE)] + if |e| == 0 then [] else [DOT] + e
  }

  /** Names of at most eight bytes, a dot, and one to three bytes, or without a dot; no spaces. */
  predicate IsShortName(name: seq<u8>) {
    var d := Before(name, DOT);
    || name == [DOT]
    || (d <= 8 && SPACE !in name && (d == |name| || 1 <= |name| - d - 1 <= 3))
  }

  lemma TrimPad(s: seq<u8>, n: nat)
    ensures Pad(s, n)[..Before(Pad(s, n), SPACE)] == s[..Min(Before(s, SPACE), n)]
  {
    var k := Min(Before(s, SPACE), n);
    BeforeIs(Pad(s, n), SPACE, k);
  }

  /** Storing a name and reading it back gives the name exactly if it is a short name. */
  lemma ShortNameRoundTrip(name: seq<u8>)
    ensures NameOf(Fields(name).0, Fields(name).1) == name <==> IsShortName(name)
  {
    if name == [DOT] || name == [DOT, DOT] {
      DotNames(name);
    } else {
      OtherNames(name);
    }
  }

  lemma DotNames(name: seq<u8>)
    requires name == [DOT] || name == [DOT, DOT]
    ensures NameOf(Pad(name, 8), Pad([], 3)) == name && IsShortName(name)
  {
    TrimPad(name, 8);
    TrimPad([], 3);
    BeforeIs(name, SPACE, |name|);
    BeforeIs(name, DOT, 0);
  }

  /** What the code takes for the extension. */
  function Rest(name: seq<u8>): seq<u8> {
    if BaseLength(name) < |name| then name[BaseLength(name) + 1..] else []
  }

  /** What comes back of a name: its base up to the first space, and its extension up to the first space. */
  function Back(name: seq<u8>): seq<u8> {
    var b, e := Before(name[..BaseLength(name)], SPACE), Min(Before(Rest(name), SPACE), 3);
    name[..b] + if e == 0 then [] else [DOT] + Rest(name)[..e]
  }

  lemma OtherNames(name: seq<u8>)
    requires name != [DOT] && name != [DOT, DOT]
    ensures NameOf(Fields(name).0, Fields(name).1) == name <==> IsShortName(name)
  {
    hide Before, BaseLength, Pad, IsShortName;
    var n := BaseLength(name);
    BaseIsShort(name);
    TrimPad(name[..n], 8);
    TrimPad(Rest(name), 3);
    var b, e := Before(name[..n], SPACE), Min(Before(Rest(name), SPACE), 3);
    assert name[..n][..b] == name[..b];
    assert NameOf(Fields(name).0, Fields(name).1) == Back(name);
    hide Rest, Back, NameOf, Fields;
    if IsShortName(name) {
      ShortComesBack(name);
    }
    if Back(name) == name {
      BackIsShort(name);
    }
  }

  lemma BaseIsShort(name: seq<u8>)
    ensures BaseLength(name) <= 8
  {
  }

  lemma ShortComesBack(name: seq<u8>)
    requires name != [DOT] && IsShortName(name)
    ensures Back(name) == name
  {
    hide Before;
    var n, rest := BaseLength(name), Rest(name);
    BeforeIs(name[..n], SPACE, n);
    BeforeIs(rest, SPACE, |rest|);
    assert rest[..|rest|] == rest;
  }

  lemma BackIsShort(name: seq<u8>)
    requires Back(name) == name
    ensures IsShortName(name)
  {
    hide Before;
    var n, rest := BaseLength(name), Rest(name);
    var b, e := Before(name[..n], SPACE), Min(Before(rest, SPACE), 3);
    assert |name| == if e == 0 then b else b + 1 + e;
    assert b == n;
    if e > 0 {
      assert name[n] == DOT;
      assert e == |rest|;
      forall i | 0 <= i < |name|
        ensures name[i] != SPACE
      {
        if i > n {
          assert name[i] == rest[i - n - 1];
        } else if i < n {
          assert name[i] == name[..n][i];
        }
      }
    } else {
      assert name[..n] == name;
    }
  }

  /** The entry that follows the long-name entries from first on. */
  ghost predicate IsShortEntry(dir: seq<u8>, first: nat, e: nat) {
    && first <= e && ENTRY * (e + 1) <= |dir| && dir[ENTRY * e + ATTRIB] != ATTRIB_LONG_NAME
    && forall d :: first <= d < e ==> dir[ENTRY * d + ATTRIB] == ATTRIB_LONG_NAME
  }

  /** `while(DirEntry->Attrib == ATTRIB_LONG_NAME) DirEntry++;` */
  method SkipLongEntries(dir: array<u8>, first: nat, ghost short: nat) returns (e: nat)
    requires IsShortEntry(dir[..], first, short)
    ensures e == short && dir[32 * e + 11] != 15 && forall d :: first <= d < e ==> dir[32 * d + 11] == 15
  {
    e := first;
    while dir[ENTRY * e + ATTRIB] == ATTRIB_LONG_NAME
      invariant first <= e <= short
      decreases short - e
    {
      e := e + 1;
    }
  }

  /** The Name and Extension fields of entry e. */
  ghost function NameField(dir: seq<u8>, e: nat): seq<u8>
    requires ENTRY * (e + 1) <= |dir|
  {
    dir[ENTRY * e..ENTRY * e + 8]
  }

  ghost function ExtensionField(dir: seq<u8>, e: nat): seq<u8>
    requires ENTRY * (e + 1) <= |dir|
  {
    dir[ENTRY * e + 8..ENTRY * e + 11]
  }

  /** The directory with some bytes replaced from at on. */
  function Spliced(dir: seq<u8>, at: nat, bytes: seq<u8>): (r: seq<u8>)
    requires at + |bytes| <= |dir|
    ensures |r| == |dir|
  {
    dir[..at] + bytes + dir[at + |bytes|..]
  }

  /** `for(i = 0; i < n; i++)`: copy up to a terminator or stop, then spaces; returns what is left of the name. */
  method CopyField(dir: array<u8>, at: nat, n: nat, name: seq<u8>, stopAtDot: bool) returns (k: nat)
    requires at + n <= dir.Length
    modifies dir
    ensures k == Min(if stopAtDot then Before(name, DOT) else |name|, n)
    ensures dir[..] == Spliced(old(dir[..]), at, Pad(name[..k], n))
  {
    hide Before;
    var i := 0;
    k := 0;
    ghost var stop := if stopAtDot then Before(name, DOT) else |name|;
    while i < n
      invariant 0 <= i <= n && k == Min(stop, i) && k <= |name|
      invariant forall x :: 0 <= x < dir.Length ==>
        dir[x] == if at <= x < at + i then (if x < at + k then name[x - at] else SPACE) else old(dir[x])
    {
      if k == |name| || (stopAtDot && name[k] == DOT) {
        dir[at + i] := SPACE;
      } else {
        dir[at + i] := name[k];
        k := k + 1;
      }
      i := i + 1;
    }
  }

  /** The directory with both name fields of entry e replaced. */
  function Replaced(dir: seq<u8>, e: nat, base: seq<u8>, ext: seq<u8>): (r: seq<u8>)
    requires ENTRY * (e + 1) <= |dir| && |base| == 8 && |ext| == 3
    ensures |r| == |dir|
  {
    dir[..ENTRY * e] + base + ext + dir[ENTRY * e + ATTRIB..]
  }

  method SetDirEntryFileName(dir: array<u8>, first: nat, FileName: seq<u8>, ghost short: nat)
    requires IsShortEntry(dir[..], first, short)
    modifies dir
    ensures dir[..] == Replaced(old(dir[..]), short, Fields(FileName).0, Fields(FileName).1)
    ensures dir[32 * short..32 * short + 8] == Fields(FileName).0
    ensures dir[32 * short + 8..32 * short + 11] == Fields(FileName).1
    ensures forall k :: 0 <= k < dir.Length && !(32 * short <= k < 32 * short + 11) ==> dir[k] == old(dir[k])
  {
    hide Before, Pad, Spliced, Replaced;
    ReplacedPlaces(dir[..], short, Fields(FileName).0, Fields(FileName).1);
    var e := SkipLongEntries(dir, first, short);
    ghost var was := dir[..];
    if FileName == [DOT] || FileName == [DOT, DOT] {
      var _ := CopyField(dir, ENTRY * e, 8, FileName, false);
      assert FileName[..|FileName|] == FileName;
      var _ := CopyField(dir, ENTRY * e + 8, 3, [], false);
    } else {
      var k := CopyField(dir, ENTRY * e, 8, FileName, true);
      var rest := if k < |FileName| then FileName[k + 1..] else [];
      var m := CopyField(dir, ENTRY * e + 8, 3, rest, false);
      PadShort(rest, 3);
    }
    FieldsWritten(was, e, Fields(FileName).0, Fields(FileName).1);
  }

  lemma ReplacedPlaces(dir: seq<u8>, e: nat, base: seq<u8>, ext: seq<u8>)
    requires ENTRY * (e + 1) <= |dir| && |base| == 8 && |ext| == 3
    ensures var r := Replaced(dir, e, base, ext);
            && r[32 * e..32 * e + 8] == base && r[32 * e + 8..32 * e + 11] == ext
            && (forall k :: 0 <= k < |dir| && !(32 * e <= k < 32 * e + 11) ==> r[k] == dir[k])
  {
  }

  lemma PadShort(s: seq<u8>, n: nat)
    ensures Pad(s[..Min(|s|, n)], n) == Pad(s, n)
  {
  }

  lemma FieldsWritten(was: seq<u8>, e: nat, base: seq<u8>, ext: seq<u8>)
    requires |base| == 8 && |ext| == 3 && ENTRY * (e + 1) <= |was|
    ensures Spliced(Spliced(was, ENTRY * e, base), ENTRY * e + 8, ext) == Replaced(was, e, base, ext)
  {
  }

  /** Copies a field up to the first space. */
  method ReadField(dir: array<u8>, at: nat, n: nat) returns (s: seq<u8>)
    requires at + n <= dir.Length
    ensures var field := dir[at..at + n]; s == field[..Before(field, SPACE)]
  {
    s := [];
    var i := 0;
    ghost var field := dir[at..at + n];
    while i < n
      invariant 0 <= i <= Before(field, SPACE) && s == field[..i]
    {
      if dir[at + i] == SPACE {
        break;
      }
      s := s + [dir[at + i]];
      i := i + 1;
    }
  }

  method GetDirEntryFileName(dir: array<u8>, first: nat, ghost short: nat) returns (FileName: seq<u8>)
    requires IsShortEntry(dir[..], first, short)
    ensures FileName == NameOf(NameField(dir[..], short), ExtensionField(dir[..], short))
  {
    hide Before;
    var e := SkipLongEntries(dir, first, short);
    FileName := ReadField(dir, ENTRY * e, 8);
    var Extension := ReadField(dir, ENTRY * e + 8, 3);
    assert dir[ENTRY * e..ENTRY * e + 8] == NameField(dir[..], e);
    assert dir[ENTRY * e + 8..ENTRY * e + 11] == ExtensionField(dir[..], e);
    if |Extension| > 0 {
      FileName := FileName + [DOT] + Extension;
    }
  }

  /** A name that is set and read again is the same exactly if it is a short name; no other byte has changed. */
  method SetAndGetFileName(dir: array<u8>, first: nat, FileName: seq<u8>, ghost short: nat) returns (back: seq<u8>)
    requires IsShortEntry(dir[..], first, short)
    modifies dir
    ensures back == FileName <==> IsShortName(FileName)
    ensures forall i :: 0 <= i < dir.Length && !(ENTRY * short <= i < ENTRY * short + ATTRIB) ==> dir[i] == old(dir[i])
  {
    hide Before, Pad, NameOf, Fields, IsShortName;
    SetDirEntryFileName(dir, first, FileName, short);
    ShortEntryKept(old(dir[..]), first, short, Fields(FileName).0, Fields(FileName).1);
    back := GetDirEntryFileName(dir, first, short);
    ShortNameRoundTrip(FileName);
  }

  lemma ShortEntryKept(dir: seq<u8>, first: nat, e: nat, base: seq<u8>, ext: seq<u8>)
    requires IsShortEntry(dir, first, e) && |base| == 8 && |ext| == 3
    ensures var r := Replaced(dir, e, base, ext);
            IsShortEntry(r, first, e) && NameField(r, e) == base && ExtensionField(r, e) == ext
  {
  }

  /** Where the characters of a long name stand in an entry. */
  const OFFSETS: seq<nat> := [1, 3, 5, 7, 9, 14, 16, 18, 20, 22, 24, 28, 30]

  /** Where character i of a long name stands, when the short entry is e: 13 characters in each entry, backwards. */
  function CharAt(e: nat, i: nat): int {
    ENTRY * (e - 1 - i / 13) + OFFSETS[i % 13]
  }

  /**
   * Each entry of 32 bytes holds 13 characters of two bytes: five from byte 1 on, six from byte 14 on, and two from
   * byte 28 on; the entry in front of the short one holds the first 13 characters of the name.
   */
  lemma CharPlaces(e: nat, i: nat)
    ensures var entry, c := e - 1 - i / 13, i % 13;
            CharAt(e, i) == 32 * entry + 2 * c + if c < 5 then 1 else if c < 11 then 4 else 6
  {
    OffsetPlaces(i % 13);
  }

  lemma OffsetPlaces(c: nat)
    requires c < 13
    ensures OFFSETS[c] == 2 * c + if c < 5 then 1 else if c < 11 then 4 else 6
  {
  }

  /** No two characters share a byte. */
  lemma CharsApart(e: nat, i: nat, j: nat)
    requires i != j
    ensures CharAt(e, i) != CharAt(e, j)
  {
    var a, r := DivDef(i, 13);
    var b, s := DivDef(j, 13);
    assert OFFSETS[r] == OFFSETS[s] ==> r == s;
  }

  /** No character stands in the place of an attribute. */
  lemma NoCharIsAttrib(e: nat, i: nat, d: nat)
    ensures CharAt(e, i) != ENTRY * d + ATTRIB
  {
    assert OFFSETS[i % 13] != ATTRIB;
  }

  /** The characters of long entries lie in the directory. */
  lemma CharInEntries(e: nat, i: nat, first: nat)
    requires first <= e && i < 13 * (e - first)
    ensures ENTRY * first <= CharAt(e, i) < ENTRY * e
  {
    var a, r := DivDef(i, 13);
  }

  /** A name with its terminator. */
  function NameChar(name: seq<u8>, i: nat): u8 {
    if i < |name| then name[i] else 0
  }

  /** The first n characters of a long name, and its terminator if it is among them, have been stored. */
  ghost predicate Stored(was: seq<u8>, now: seq<u8>, e: nat, name: seq<u8>, n: nat) {
    && |now| == |was| && n <= |name| + 1
    && (forall i :: 0 <= i < n ==> 0 <= CharAt(e, i) < |now| && now[CharAt(e, i)] == NameChar(name, i))
    && (forall b :: 0 <= b < |now| && (forall i :: 0 <= i < n ==> CharAt(e, i) != b) ==> now[b] == was[b])
  }

  lemma StoreOn(was: seq<u8>, now: seq<u8>, e: nat, name: seq<u8>, n: nat)
    requires Stored(was, now, e, name, n) && n <= |name| && 0 <= CharAt(e, n) < |now|
    ensures Stored(was, now[CharAt(e, n) := NameChar(name, n)], e, name, n + 1)
  {
    hide CharAt, NameChar;
    var now' := now[CharAt(e, n) := NameChar(name, n)];
    forall i | 0 <= i < n + 1
      ensures 0 <= CharAt(e, i) < |now'| && now'[CharAt(e, i)] == NameChar(name, i)
    {
      if i < n {
        CharsApart(e, i, n);
      }
    }
    forall b | 0 <= b < |now'| && forall i :: 0 <= i < n + 1 ==> CharAt(e, i) != b
      ensures now'[b] == was[b]
    {
      assert CharAt(e, n) != b;
    }
  }

  /** One long entry: the macro SET_LONG_FILE_NAME at the 13 offsets; a stored terminator ends everything. */
  method SetEntryChars(dir: array<u8>, d: nat, name: seq<u8>, k: nat, ghost e: nat, ghost was: seq<u8>)
    returns (k': nat, over: bool)
    requires d < e && ENTRY * (e + 1) <= dir.Length && k == 13 * (e - 1 - d) && k <= |name|
    requires Stored(was, dir[..], e, name, k)
    modifies dir
    ensures Stored(was, dir[..], e, name, k')
    ensures if over then k' == |name| + 1 && k' <= k + 13 else k' == k + 13 <= |name|
  {
    hide Stored, CharAt, NameChar;
    k' := k;
    over := false;
    for j := 0 to 13
      invariant !over && k' == k + j && k' <= |name| && Stored(was, dir[..], e, name, k')
    {
      OffsetOf(e, d, k, j);
      StoreOn(was, dir[..], e, name, k');
      CharIs(name, k');
      dir[ENTRY * d + OFFSETS[j]] := if k' < |name| then name[k'] else 0;
      k' := k' + 1;
      if k' == |name| + 1 {
        over := true;
        break;
      }
    }
  }

  lemma CharIs(name: seq<u8>, k: nat)
    ensures NameChar(name, k) == if k < |name| then name[k] else 0
  {
  }

  lemma OffsetOf(e: nat, d: nat, k: nat, j: nat)
    requires d < e && k == 13 * (e - 1 - d) && j < 13
    ensures CharAt(e, k + j) == ENTRY * d + OFFSETS[j] && 0 <= CharAt(e, k + j) < ENTRY * (d + 1)
  {
    Div(e - 1 - d, j, 13);
    assert OFFSETS[j] < ENTRY;
  }

  /** Stores as much of the name as the long entries take, and its terminator if there is room for it. */
  method SetDirEntryLongFileName(dir: array<u8>, first: nat, LongFileName: seq<u8>, ghost short: nat)
    requires IsShortEntry(dir[..], first, short) && 0 !in LongFileName
    modifies dir
    ensures Stored(old(dir[..]), dir[..], short, LongFileName, Min(|LongFileName| + 1, 13 * (short - first)))
  {
    hide Stored, CharAt;
    ghost var was := dir[..];
    var e := SkipLongEntries(dir, first, short);
    NothingStored(was, short, LongFileName);
    if first != e {
      var k, d, over := 0, e, false;
      while d != first
        invariant first <= d <= e && !over && k == 13 * (e - d) && k <= |LongFileName|
        invariant Stored(was, dir[..], e, LongFileName, k)
        decreases d
      {
        d := d - 1;
        k, over := SetEntryChars(dir, d, LongFileName, k, e, was);
        if over {
          break;
        }
      }
    }
  }

  lemma NothingStored(was: seq<u8>, e: nat, name: seq<u8>)
    ensures Stored(was, was, e, name, 0)
  {
  }

  /** s is what the long entries hold, from the first character on. */
  ghost predicate Holds(dir: seq<u8>, e: nat, s: seq<u8>) {
    forall i :: 0 <= i < |s| ==> 0 <= CharAt(e, i) < |dir| && dir[CharAt(e, i)] == s[i] && s[i] != 0
  }

  /** The macro GET_LONG_FILE_NAME at the 13 offsets of an entry; a terminator ends everything. */
  method GetEntryChars(dir: array<u8>, d: nat, s: seq<u8>, ghost e: nat) returns (s': seq<u8>, over: bool)
    requires d < e && ENTRY * (e + 1) <= dir.Length && |s| == 13 * (e - 1 - d) && Holds(dir[..], e, s)
    ensures Holds(dir[..], e, s')
    ensures if over then |s'| < |s| + 13 && 0 <= CharAt(e, |s'|) < dir.Length && dir[CharAt(e, |s'|)] == 0
            else |s'| == |s| + 13
  {
    hide CharAt;
    s' := s;
    over := false;
    for j := 0 to 13
      invariant !over && |s'| == |s| + j && Holds(dir[..], e, s')
    {
      OffsetOf(e, d, |s|, j);
      var c := dir[ENTRY * d + OFFSETS[j]];
      if c == 0 {
        over := true;
        break;
      }
      s' := s' + [c];
    }
  }

  method GetDirEntryLongFileName(dir: array<u8>, first: nat, ghost short: nat) returns (LongFileName: seq<u8>)
    requires IsShortEntry(dir[..], first, short)
    ensures first == short ==> LongFileName == NameOf(NameField(dir[..], short), ExtensionField(dir[..], short))
    ensures first < short ==> |LongFileName| <= 13 * (short - first) && Holds(dir[..], short, LongFileName)
    ensures first < short && |LongFileName| < 13 * (short - first) ==>
      0 <= CharAt(short, |LongFileName|) < dir.Length && dir[CharAt(short, |LongFileName|)] == 0
  {
    hide CharAt, NameOf, Holds;
    var e := SkipLongEntries(dir, first, short);
    if first == e {
      LongFileName := GetDirEntryFileName(dir, e, e);
      return;
    }
    LongFileName := [];
    NothingHeld(dir[..], e);
    var d, over := e, false;
    while d != first
      invariant first <= d <= e && !over && |LongFileName| == 13 * (e - d) && Holds(dir[..], e, LongFileName)
      decreases d
    {
      d := d - 1;
      LongFileName, over := GetEntryChars(dir, d, LongFileName, e);
      if over {
        break;
      }
    }
  }

  lemma NothingHeld(dir: seq<u8>, e: nat)
    ensures Holds(dir, e, [])
  {
  }

  /** What is read after storing a name is the part of it that has room. */
  lemma CharStored(was: seq<u8>, now: seq<u8>, e: nat, name: seq<u8>, n: nat, i: nat)
    requires Stored(was, now, e, name, n) && i < n
    ensures 0 <= CharAt(e, i) < |now| && now[CharAt(e, i)] == NameChar(name, i)
  {
  }

  lemma CharHeld(dir: seq<u8>, e: nat, s: seq<u8>, i: nat)
    requires Holds(dir, e, s) && i < |s|
    ensures 0 <= CharAt(e, i) < |dir| && dir[CharAt(e, i)] == s[i] && s[i] != 0
  {
  }

  lemma ReadIsStored(was: seq<u8>, now: seq<u8>, e: nat, name: seq<u8>, room: nat, s: seq<u8>)
    requires Stored(was, now, e, name, Min(|name| + 1, room)) && 0 !in name
    requires Holds(now, e, s) && |s| <= room
    requires |s| < room ==> 0 <= CharAt(e, |s|) < |now| && now[CharAt(e, |s|)] == 0
    ensures s == name[..Min(|name|, room)]
  {
    hide CharAt, Stored, Holds;
    var n := Min(|name| + 1, room);
    forall i | 0 <= i < |s| && i < n
      ensures s[i] == NameChar(name, i) && s[i] != 0
    {
      CharStored(was, now, e, name, n, i);
      CharHeld(now, e, s, i);
    }
    if |s| < n {
      CharStored(was, now, e, name, n, |s|);
    }
    SameText(name, n, room, s);
  }

  lemma SameText(name: seq<u8>, n: nat, room: nat, s: seq<u8>)
    requires n == Min(|name| + 1, room) && 0 !in name && |s| <= room
    requires forall i :: 0 <= i < |s| && i < n ==> s[i] == NameChar(name, i) && s[i] != 0
    requires |s| < n ==> NameChar(name, |s|) == 0
    ensures s == name[..Min(|name|, room)]
  {
    assert forall i :: 0 <= i < |name| ==> name[i] != 0;
    assert |name| < |s| ==> s[|name|] == NameChar(name, |name|);
  }

  /** Storing a long name keeps the attributes, hence the number of long entries. */
  lemma AttribsKept(was: seq<u8>, now: seq<u8>, first: nat, e: nat, name: seq<u8>, n: nat)
    requires IsShortEntry(was, first, e) && Stored(was, now, e, name, n)
    ensures forall d: nat {:trigger ENTRY * d} :: ENTRY * d + ATTRIB < |was| ==>
              now[ENTRY * d + ATTRIB] == was[ENTRY * d + ATTRIB]
    ensures IsShortEntry(now, first, e)
  {
    hide CharAt;
    forall d: nat {:trigger ENTRY * d} | ENTRY * d + ATTRIB < |was|
      ensures now[ENTRY * d + ATTRIB] == was[ENTRY * d + ATTRIB]
    {
      forall i: nat
        ensures CharAt(e, i) != ENTRY * d + ATTRIB
      {
        NoCharIsAttrib(e, i, d);
      }
    }
  }

  /**
   * A long name that is set and read again comes back, as far as the long entries have room for it; with enough room
   * all of it does. No attribute changes, and no byte outside the long entries does.
   */
  method SetAndGetLongFileName(dir: array<u8>, first: nat, LongFileName: seq<u8>, ghost short: nat) returns (back: seq<u8>)
    requires IsShortEntry(dir[..], first, short) && first < short && 0 !in LongFileName
    modifies dir
    ensures back == LongFileName[..Min(|LongFileName|, 13 * (short - first))]
    ensures back == LongFileName <==> |LongFileName| <= 13 * (short - first)
    ensures forall d: nat {:trigger ENTRY * d} :: ENTRY * d + ATTRIB < dir.Length ==>
              dir[ENTRY * d + ATTRIB] == old(dir[ENTRY * d + ATTRIB])
    ensures forall b :: 0 <= b < dir.Length && !(ENTRY * first <= b < ENTRY * short) ==> dir[b] == old(dir[b])
  {
    hide Stored, CharAt, Holds;
    ghost var was, n := dir[..], Min(|LongFileName| + 1, 13 * (short - first));
    SetDirEntryLongFileName(dir, first, LongFileName, short);
    AttribsKept(was, dir[..], first, short, LongFileName, n);
    OnlyEntries(was, dir[..], first, short, LongFileName, n);
    back := GetDirEntryLongFileName(dir, first, short);
    ReadIsStored(was, dir[..], short, LongFileName, 13 * (short - first), back);
  }

  lemma OnlyEntries(was: seq<u8>, now: seq<u8>, first: nat, e: nat, name: seq<u8>, n: nat)
    requires Stored(was, now, e, name, n) && first <= e && n <= 13 * (e - first)
    ensures |now| == |was| && forall b :: 0 <= b < |was| && !(ENTRY * first <= b < ENTRY * e) ==> now[b] == was[b]
  {
    hide CharAt;
    forall b | 0 <= b < |was| && !(ENTRY * first <= b < ENTRY * e)
      ensures now[b] == was[b]
    {
      forall i | 0 <= i < n
        ensures CharAt(e, i) != b
      {
        CharInEntries(e, i, first);
      }
    }
  }
}
