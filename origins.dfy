// parseTrustedOrigins (main.go): the comma-separated origin list of the
// configuration, split, trimmed, blanks dropped. strings.Split and
// strings.TrimSpace are written out; white space is the ASCII white space.
module Origins {
  import opened Common

  /** strings.Split(s, string(sep)): the pieces between separators, in order;
      one more piece than there are separators. */
  function Split(s: string, sep: char): (parts: seq<string>)
    ensures |parts| >= 1
    decreases |s|
  {
    if s == [] then [""]
    else
      var rest := Split(s[1..], sep);
      if s[0] == sep then [""] + rest else [[s[0]] + rest[0]] + rest[1..]
  }

  /** strings.Join(parts, string(sep)). */
  function Join(parts: seq<string>, sep: char): string
    requires |parts| >= 1
    decreases |parts|
  {
    if |parts| == 1 then parts[0] else parts[0] + [sep] + Join(parts[1..], sep)
  }

  predicate NoSep(p: string, sep: char) {
    forall i :: 0 <= i < |p| ==> p[i] != sep
  }

  lemma {:induction false} SplitCount(s: string, sep: char)
    ensures |Split(s, sep)| == Count(s, sep) + 1
    decreases |s|
  {
    if s != [] {
      SplitCount(s[1..], sep);
    }
  }

  lemma {:induction false} SplitPiecesHaveNoSep(s: string, sep: char)
    ensures forall k :: 0 <= k < |Split(s, sep)| ==> NoSep(Split(s, sep)[k], sep)
    decreases |s|
  {
    if s != [] {
      SplitPiecesHaveNoSep(s[1..], sep);
    }
  }

  /** Joining the pieces gives the string back. */
  lemma {:induction false} JoinSplit(s: string, sep: char)
    ensures Join(Split(s, sep), sep) == s
    decreases |s|
  {
    if s != [] {
      var rest := Split(s[1..], sep);
      JoinSplit(s[1..], sep);
      if s[0] == sep {
        assert Split(s, sep)[1..] == rest;
      } else {
        var parts := Split(s, sep);
        if |rest| == 1 {
          assert parts == [[s[0]] + rest[0]];
        } else {
          assert parts[1..] == rest[1..];
          assert Join(rest, sep) == rest[0] + [sep] + Join(rest[1..], sep);
        }
      }
    }
  }

  /** Splitting a join of separator-free pieces gives the pieces back. */
  lemma {:induction false} SplitJoin(parts: seq<string>, sep: char)
    requires |parts| >= 1
    requires forall k :: 0 <= k < |parts| ==> NoSep(parts[k], sep)
    ensures Split(Join(parts, sep), sep) == parts
    decreases |parts|, |parts[0]|
  {
    if parts[0] == [] {
      if |parts| > 1 {
        assert Join(parts, sep) == [sep] + Join(parts[1..], sep);
        SplitJoin(parts[1..], sep);
        assert ([sep] + Join(parts[1..], sep))[1..] == Join(parts[1..], sep);
        assert [""] + parts[1..] == parts;
      }
    } else {
      var p := parts[0];
      var shorter := [p[1..]] + parts[1..];
      assert forall k :: 0 <= k < |shorter| ==> NoSep(shorter[k], sep) by {
        forall k | 0 <= k < |shorter| ensures NoSep(shorter[k], sep) {
          if k > 0 {
            assert shorter[k] == parts[k];
          }
        }
      }
      SplitJoin(shorter, sep);
      assert Join(parts, sep) == [p[0]] + Join(shorter, sep) by {
        if |parts| > 1 {
          assert shorter[1..] == parts[1..];
        }
      }
      assert ([p[0]] + Join(shorter, sep))[1..] == Join(shorter, sep);
      assert [[p[0]] + p[1..]] + parts[1..] == parts by {
        assert [p[0]] + p[1..] == p;
      }
    }
  }

  /** The ASCII white space strings.TrimSpace removes. */
  predicate IsSpace(c: char) {
    c == ' ' || c == '\t' || c == '\n' || c == '\r' || c == '\U{000B}' || c == '\U{000C}'
  }

  /** The number of leading white-space characters. */
  function Start(s: string): (i: nat)
    ensures i <= |s|
    ensures forall k :: 0 <= k < i ==> IsSpace(s[k])
    ensures i < |s| ==> !IsSpace(s[i])
    decreases |s|
  {
    if s != [] && IsSpace(s[0]) then
      var i := 1 + Start(s[1..]);
      assert forall k :: 1 <= k < i ==> s[k] == s[1..][k - 1];
      i
    else 0
  }

  /** The end of the string once trailing white space at or above `lo` is
      removed. */
  function EndAbove(s: string, lo: nat): (j: nat)
    requires lo <= |s|
    ensures lo <= j <= |s|
    ensures forall k :: j <= k < |s| ==> IsSpace(s[k])
    ensures j > lo ==> !IsSpace(s[j - 1])
    decreases |s|
  {
    if |s| > lo && IsSpace(s[|s| - 1]) then EndAbove(s[..|s| - 1], lo) else |s|
  }

  /** strings.TrimSpace: the middle of the string between its leading and
      its trailing white space. */
  function TrimSpace(s: string): (t: string)
    ensures t != [] ==> !IsSpace(t[0]) && !IsSpace(t[|t| - 1])
    ensures |t| <= |s|
    ensures var i := Start(s);
            var j := EndAbove(s, i);
            && t == s[i..j]
            && (forall k :: 0 <= k < i ==> IsSpace(s[k]))
            && (forall k :: j <= k < |s| ==> IsSpace(s[k]))
  {
    s[Start(s)..EndAbove(s, Start(s))]
  }

  lemma InitAndLast<T>(s: seq<T>)
    requires s != []
    ensures s[..|s| - 1] + [s[|s| - 1]] == s
  {
  }

  /** A string without white space at either end is its own trimming. */
  lemma TrimSpaceKeepsTrimmed(s: string)
    requires s != [] ==> !IsSpace(s[0]) && !IsSpace(s[|s| - 1])
    ensures TrimSpace(s) == s
  {
  }

  /** So trimming twice is trimming once. */
  lemma TrimSpaceIdempotent(s: string)
    ensures TrimSpace(TrimSpace(s)) == TrimSpace(s)
  {
    TrimSpaceKeepsTrimmed(TrimSpace(s));
  }

  /** The trimmed, non-blank pieces, in their order. */
  function NonBlank(parts: seq<string>): (r: seq<string>)
    ensures |r| <= |parts|
    decreases |parts|
  {
    if parts == [] then []
    else
      var t := TrimSpace(parts[|parts| - 1]);
      NonBlank(parts[..|parts| - 1]) + (if t != "" then [t] else [])
  }

  /** What parseTrustedOrigins returns. */
  function TrustedOrigins(origins: string): (r: seq<string>)
    ensures origins == "" ==> r == []
  {
    if origins == "" then [] else NonBlank(Split(origins, ','))
  }

  /** parseTrustedOrigins. */
  method ParseTrustedOrigins(origins: string) returns (result: seq<string>)
    ensures result == TrustedOrigins(origins)
  {
    if origins == "" {
      return [];
    }
    var parts := Split(origins, ',');
    result := [];
    var i := 0;
    while i < |parts|
      invariant 0 <= i <= |parts|
      invariant result == NonBlank(parts[..i])
    {
      assert parts[..i + 1][..i] == parts[..i];
      var trimmed := TrimSpace(parts[i]);
      if trimmed != "" {
        result := result + [trimmed];
      }
      i := i + 1;
    }
    assert parts[..i] == parts;
  }

  /** Every origin is non-empty and has no white space at either end. */
  lemma {:induction false} NonBlankTrimmed(parts: seq<string>)
    ensures forall k :: 0 <= k < |NonBlank(parts)| ==>
              NonBlank(parts)[k] != "" && TrimSpace(NonBlank(parts)[k]) == NonBlank(parts)[k]
    decreases |parts|
  {
    if parts != [] {
      NonBlankTrimmed(parts[..|parts| - 1]);
      TrimSpaceIdempotent(parts[|parts| - 1]);
    }
  }

  /** At most one origin per comma-separated piece. */
  lemma OriginsBound(origins: string)
    ensures |TrustedOrigins(origins)| <= Count(origins, ',') + 1
    ensures forall k :: 0 <= k < |TrustedOrigins(origins)| ==>
              TrustedOrigins(origins)[k] != "" && TrimSpace(TrustedOrigins(origins)[k]) == TrustedOrigins(origins)[k]
  {
    SplitCount(origins, ',');
    NonBlankTrimmed(Split(origins, ','));
  }

  /** Trimmed, comma-free, non-empty origins written as a comma-separated
      list are read back as that list. */
  lemma OriginsRoundTrip(os: seq<string>)
    requires |os| >= 1
    requires forall k :: 0 <= k < |os| ==> os[k] != "" && NoSep(os[k], ',') && TrimSpace(os[k]) == os[k]
    ensures TrustedOrigins(Join(os, ',')) == os
  {
    SplitJoin(os, ',');
    assert |Join(os, ',')| >= |os[0]|;
    NonBlankOfTrimmed(os);
  }

  lemma {:induction false} NonBlankOfTrimmed(os: seq<string>)
    requires forall k :: 0 <= k < |os| ==> os[k] != "" && TrimSpace(os[k]) == os[k]
    ensures NonBlank(os) == os
    decreases |os|
  {
    if os != [] {
      var init := os[..|os| - 1];
      var last := os[|os| - 1];
      assert forall k :: 0 <= k < |init| ==> init[k] == os[k];
      NonBlankOfTrimmed(init);
      assert TrimSpace(last) == last && last != "";
      assert NonBlank(os) == init + [last];
      InitAndLast(os);
    }
  }
}
