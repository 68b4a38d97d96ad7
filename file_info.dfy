/** The two pure derivations App.tsx makes from the chosen file: the type shown for
    it (`file.name.split('.').pop() || 'unknown'`) and the unit its size is shown in. */
module FileInfo {
  import opened Types

  // ---------------------------------------------------------------------------
  // String.prototype.split with a one-character separator, and its inverse.
  // ---------------------------------------------------------------------------

  /** Glues the parts back together with `sep` between neighbours. */
  function Join(parts: seq<string>, sep: char): string
    requires |parts| >= 1
  {
    if |parts| == 1 then parts[0] else parts[0] + [sep] + Join(parts[1..], sep)
  }

  /** The segments of `s` between occurrences of `sep`, empty segments included:
      "" gives [""], "a." gives ["a", ""], ".a" gives ["", "a"]. */
  function Split(s: string, sep: char): (parts: seq<string>)
    ensures |parts| >= 1
  {
    if |s| == 0 then [""]
    else
      var rest := Split(s[1..], sep);
      if s[0] == sep then [""] + rest else [[s[0]] + rest[0]] + rest[1..]
  }

  /** Split cuts `s` at every separator and nowhere else: the parts are separator-free,
      joining them gives `s` back, and there is more than one exactly when `s` holds
      a separator. */
  lemma {:induction false} SplitProperties(s: string, sep: char)
    ensures var parts := Split(s, sep);
      && (forall i :: 0 <= i < |parts| ==> sep !in parts[i])
      && Join(parts, sep) == s
      && (|parts| == 1 <==> sep !in s)
    decreases |s|
  {
    if |s| > 0 {
      var t := s[1..];
      var rest := Split(t, sep);
      var parts := Split(s, sep);
      SplitProperties(t, sep);
      assert s == [s[0]] + t;
      if s[0] == sep {
        assert parts == [""] + rest;
        assert parts[1..] == rest;
      } else {
        assert parts == [[s[0]] + rest[0]] + rest[1..];
        if |rest| > 1 {
          assert parts[1..] == rest[1..];
          assert Join(rest, sep) == rest[0] + [sep] + Join(rest[1..], sep);
        }
      }
    }
  }

  /** Splitting a separator-free head followed by the separator peels off that head. */
  lemma {:induction false} SplitCons(p: string, sep: char, rest: string)
    requires sep !in p
    ensures Split(p + [sep] + rest, sep) == [p] + Split(rest, sep)
    decreases |p|
  {
    var s := p + [sep] + rest;
    if |p| == 0 {
      assert s[1..] == rest;
    } else {
      assert s[1..] == p[1..] + [sep] + rest;
      SplitCons(p[1..], sep, rest);
      assert [p[0]] + p[1..] == p;
    }
  }

  /** Split undoes Join on separator-free parts, so Split and Join are mutually inverse. */
  lemma {:induction false} SplitJoin(parts: seq<string>, sep: char)
    requires |parts| >= 1
    requires forall i :: 0 <= i < |parts| ==> sep !in parts[i]
    ensures Split(Join(parts, sep), sep) == parts
    decreases |parts|
  {
    if |parts| == 1 {
      SplitProperties(parts[0], sep);
    } else {
      SplitJoin(parts[1..], sep);
      SplitCons(parts[0], sep, Join(parts[1..], sep));
      assert [parts[0]] + parts[1..] == parts;
    }
  }

  // ---------------------------------------------------------------------------
  // The file type: the segment after the last '.'.
  // ---------------------------------------------------------------------------

  /** `seg` is the part of `s` after its last `sep`, or all of `s` when there is none. */
  predicate IsLastSegment(s: string, seg: string, sep: char)
  {
    |seg| <= |s| && seg == s[|s| - |seg|..] && sep !in seg
    && (|seg| == |s| || s[|s| - |seg| - 1] == sep)
  }

  /** The last segment of a string is unique. */
  lemma LastSegmentUnique(s: string, a: string, b: string, sep: char)
    requires IsLastSegment(s, a, sep) && IsLastSegment(s, b, sep)
    ensures a == b
  {
  }

  /** Dropping the first character keeps the last segment, unless the segment was the
      whole rest and the dropped character is not a separator. */
  lemma LastSegmentOfTail(s: string, seg: string, sep: char)
    requires |s| > 0 && IsLastSegment(s[1..], seg, sep)
    requires |seg| < |s| - 1 || s[0] == sep
    ensures IsLastSegment(s, seg, sep)
  {
    assert s[|s| - |seg|..] == s[1..][|s| - 1 - |seg|..];
    if |seg| < |s| - 1 {
      assert s[|s| - |seg| - 1] == s[1..][|s| - 1 - |seg| - 1];
    }
  }

  /** One step of Split on a non-empty string. */
  lemma SplitUnfold(s: string, sep: char)
    requires |s| > 0
    ensures var rest := Split(s[1..], sep);
      Split(s, sep) == if s[0] == sep then [""] + rest else [[s[0]] + rest[0]] + rest[1..]
  {
  }

  /** `pop()` on the split: the last element of Split is the last segment. */
  lemma {:induction false} SplitLastIsLastSegment(s: string, sep: char)
    ensures var parts := Split(s, sep); IsLastSegment(s, parts[|parts| - 1], sep)
    decreases |s|
  {
    if |s| > 0 {
      SplitLastIsLastSegment(s[1..], sep);
      SplitLastStep(s, sep);
    }
  }

  /** The inductive step of SplitLastIsLastSegment. */
  lemma SplitLastStep(s: string, sep: char)
    requires |s| > 0
    requires var rest := Split(s[1..], sep); IsLastSegment(s[1..], rest[|rest| - 1], sep)
    ensures var parts := Split(s, sep); IsLastSegment(s, parts[|parts| - 1], sep)
  {
    var rest := Split(s[1..], sep);
    SplitUnfold(s, sep);
    if s[0] != sep && |rest| == 1 {
      SplitLastWholeName(s, sep);
    } else {
      SplitLastKeepsTail(s, sep);
    }
  }

  /** No separator after a non-separator head: the single part is the whole string. */
  lemma SplitLastWholeName(s: string, sep: char)
    requires |s| > 0 && s[0] != sep && |Split(s[1..], sep)| == 1
    ensures Split(s, sep) == [s] && IsLastSegment(s, s, sep)
  {
    SplitUnfold(s, sep);
    SplitProperties(s[1..], sep);
    assert Split(s[1..], sep) == [s[1..]];
    assert [s[0]] + s[1..] == s;
  }

  /** Otherwise the last part of the string is the last part of its tail. */
  lemma SplitLastKeepsTail(s: string, sep: char)
    requires |s| > 0 && (s[0] == sep || |Split(s[1..], sep)| > 1)
    requires var rest := Split(s[1..], sep); IsLastSegment(s[1..], rest[|rest| - 1], sep)
    ensures var parts := Split(s, sep); var rest := Split(s[1..], sep);
      parts[|parts| - 1] == rest[|rest| - 1] && IsLastSegment(s, parts[|parts| - 1], sep)
  {
    var rest := Split(s[1..], sep);
    var seg := rest[|rest| - 1];
    SplitUnfold(s, sep);
    if s[0] != sep {
      SplitProperties(s[1..], sep);
      assert |seg| < |s| - 1;
    }
    LastSegmentOfTail(s, seg, sep);
  }

  /** The type shown for a file name. */
  function FileType(name: string): (t: string)
    ensures t != "" && '.' !in t
  {
    SplitProperties(name, '.');
    var parts := Split(name, '.');
    var last := parts[|parts| - 1];
    if last == "" then "unknown" else last
  }

  /** The type is the name's last '.'-segment, replaced by "unknown" exactly when that
      segment is empty, which happens exactly for the empty name and names ending in '.'. */
  lemma FileTypeIsLastSegment(name: string, seg: string)
    requires IsLastSegment(name, seg, '.')
    ensures FileType(name) == if seg == "" then "unknown" else seg
    ensures seg == "" <==> (name == "" || name[|name| - 1] == '.')
  {
    SplitLastIsLastSegment(name, '.');
    var parts := Split(name, '.');
    LastSegmentUnique(name, parts[|parts| - 1], seg, '.');
  }

  /** A name without any '.' is its own type: there is no "unknown" for it. */
  lemma FileTypeWithoutDot(name: string)
    requires name != "" && '.' !in name
    ensures FileType(name) == name
  {
    FileTypeIsLastSegment(name, name);
  }

  lemma FileTypeOfApk()
    ensures FileType("app.apk") == "apk"
  {
    FileTypeIsLastSegment("app.apk", "apk");
  }

  lemma FileTypeOfDoubleExtension()
    ensures FileType("bundle.tar.zip") == "zip"
  {
    FileTypeIsLastSegment("bundle.tar.zip", "zip");
  }

  lemma FileTypeOfTrailingDot()
    ensures FileType("build.") == "unknown"
  {
    FileTypeIsLastSegment("build.", "");
  }

  // ---------------------------------------------------------------------------
  // The size unit, as exact integer arithmetic.
  // ---------------------------------------------------------------------------

  function Pow1024(e: nat): (r: nat)
    ensures r >= 1
  {
    if e == 0 then 1 else 1024 * Pow1024(e - 1)
  }

  lemma {:induction false} Pow1024Monotone(a: nat, b: nat)
    requires a <= b
    ensures Pow1024(a) <= Pow1024(b)
    decreases b
  {
    if a < b {
      Pow1024Monotone(a, b - 1);
    }
  }

  /** floor(log_1024(bytes)): the i with 1024^i <= bytes < 1024^(i+1). */
  function UnitIndex(bytes: nat): (i: nat)
    requires bytes > 0
    ensures Pow1024(i) <= bytes < Pow1024(i + 1)
    decreases bytes
  {
    if bytes < 1024 then 0
    else
      var q := bytes / 1024;
      var j := UnitIndex(q);
      assert Pow1024(j + 2) == 1024 * Pow1024(j + 1);
      1 + j
  }

  /** Only one exponent brackets a positive size. */
  lemma UnitIndexUnique(bytes: nat, j: nat)
    requires Pow1024(j) <= bytes < Pow1024(j + 1)
    ensures UnitIndex(bytes) == j
  {
    var i := UnitIndex(bytes);
    if i < j {
      Pow1024Monotone(i + 1, j);
    } else if j < i {
      Pow1024Monotone(j + 1, i);
    }
  }

  const Units: seq<string> := ["Bytes", "KB", "MB", "GB"]

  /** `sizes[i]` as string concatenation sees it: past the table it reads "undefined". */
  function UnitLabel(i: nat): (unit: string)
    ensures i < |Units| ==> unit in Units
    ensures unit == "undefined" <==> i >= |Units|
  {
    if i < |Units| then Units[i] else "undefined"
  }

  /** The size label of a file of `bytes` bytes. */
  function FormatFileSize(bytes: nat): (size: SizeLabel)
    ensures size == ZeroBytes <==> bytes == 0
    ensures size.Scaled? ==> size.bytes == bytes
  {
    if bytes == 0 then ZeroBytes
    else
      var i := UnitIndex(bytes);
      Scaled(bytes, i, UnitLabel(i))
  }

  /** A positive size is shown in the unit whose power of 1024 brackets it. */
  lemma FormatFileSizeUnit(bytes: nat, i: nat)
    requires Pow1024(i) <= bytes < Pow1024(i + 1)
    ensures FormatFileSize(bytes) == Scaled(bytes, i, UnitLabel(i))
  {
    UnitIndexUnique(bytes, i);
  }

  /** From 1024^4 bytes on the exponent runs past the four-entry table. */
  lemma FormatFileSizePastTable(bytes: nat)
    requires bytes >= Pow1024(4)
    ensures FormatFileSize(bytes).exponent >= 4
    ensures FormatFileSize(bytes).unit == "undefined"
  {
    var i := UnitIndex(bytes);
    if i < 4 {
      Pow1024Monotone(i + 1, 4);
    }
  }

  lemma FormatFileSizeExamples()
    ensures FormatFileSize(0) == ZeroBytes
    ensures FormatFileSize(1023).unit == "Bytes"
    ensures FormatFileSize(1024).unit == "KB"
    ensures FormatFileSize(1536).unit == "KB"
    ensures FormatFileSize(1048576).unit == "MB"
    ensures FormatFileSize(1073741824).unit == "GB"
  {
    FormatFileSizeUnit(1023, 0);
    FormatFileSizeUnit(1024, 1);
    FormatFileSizeUnit(1536, 1);
    FormatFileSizeUnit(1048576, 2);
    FormatFileSizeUnit(1073741824, 3);
  }
}
