/**
 * The chat-id list entered by the user: a comma-separated string split on
 * every comma (Python's str.split(",")), each part stripped of surrounding
 * whitespace (str.strip() with no argument).
 */
module ChatIds {

  /** Number of occurrences of c in s. */
  function Count(s: string, c: char): nat
  {
    if s == [] then 0 else (if s[0] == c then 1 else 0) + Count(s[1..], c)
  }

  /**
   * str.split(sep) for a one-character separator: every occurrence of sep
   * ends a part, so an empty string gives one empty part and adjacent
   * separators give empty parts.
   */
  function Split(s: string, sep: char): (parts: seq<string>)
    ensures parts != []
  {
    if s == [] then [""]
    else if s[0] == sep then [""] + Split(s[1..], sep)
    else
      var rest := Split(s[1..], sep);
      [[s[0]] + rest[0]] + rest[1..]
  }

  /** sep.join(parts) */
  function Join(parts: seq<string>, sep: char): string
    requires parts != []
  {
    if |parts| == 1 then parts[0] else parts[0] + [sep] + Join(parts[1..], sep)
  }

  /** Joining the parts back with the separator gives the original string. */
  lemma {:induction false} SplitJoin(s: string, sep: char)
    ensures Join(Split(s, sep), sep) == s
  {
    if s == [] {
    } else if s[0] == sep {
      SplitJoin(s[1..], sep);
      assert Split(s, sep)[1..] == Split(s[1..], sep);
      assert s == [sep] + s[1..];
    } else {
      var rest := Split(s[1..], sep);
      SplitJoin(s[1..], sep);
      if |rest| == 1 {
        assert s == [s[0]] + rest[0];
      } else {
        assert Split(s, sep)[1..] == rest[1..];
        assert Join(rest, sep) == rest[0] + [sep] + Join(rest[1..], sep);
        assert s == [s[0]] + s[1..];
      }
    }
  }

  /** No part holds the separator. */
  lemma {:induction false} SplitPartsFree(s: string, sep: char)
    ensures forall i | 0 <= i < |Split(s, sep)| :: sep !in Split(s, sep)[i]
  {
    if s != [] {
      SplitPartsFree(s[1..], sep);
      if s[0] != sep {
        var rest := Split(s[1..], sep);
        assert sep !in rest[0];
        assert Split(s, sep)[0] == [s[0]] + rest[0];
      }
    }
  }

  /** One part more than there are separators. */
  lemma {:induction false} SplitCount(s: string, sep: char)
    ensures |Split(s, sep)| == Count(s, sep) + 1
  {
    if s != [] {
      SplitCount(s[1..], sep);
    }
  }

  /** Splitting a join of separator-free parts recovers the parts. */
  lemma {:induction false} JoinSplit(parts: seq<string>, sep: char)
    requires parts != []
    requires forall i | 0 <= i < |parts| :: sep !in parts[i]
    ensures Split(Join(parts, sep), sep) == parts
  {
    if |parts| == 1 {
      PartFree(parts[0], [], sep);
    } else {
      JoinSplit(parts[1..], sep);
      PartFree(parts[0], Join(parts[1..], sep), sep);
      assert [parts[0]] + parts[1..] == parts;
    }
  }

  /**
   * A separator-free prefix p glued to the front of t: with no separator
   * after it, p joins the first part of t; with a separator after it, p
   * is a part of its own.
   */
  lemma {:induction false} PartFree(p: string, t: string, sep: char)
    requires sep !in p
    ensures t == [] ==> Split(p, sep) == [p]
    ensures Split(p + [sep] + t, sep) == [p] + Split(t, sep)
  {
    if p == [] {
      assert [] + [sep] + t == [sep] + t;
      assert ([sep] + t)[1..] == t;
    } else {
      PartFree(p[1..], t, sep);
      assert (p + [sep] + t)[1..] == p[1..] + [sep] + t;
      assert (p + [sep] + t)[0] == p[0];
      assert [p[0]] + p[1..] == p;
    }
  }

  /** The characters Python's str.isspace accepts. */
  predicate IsSpace(c: char)
  {
    || ('\U{0009}' <= c <= '\U{000D}')
    || ('\U{001C}' <= c <= '\U{0020}')
    || c == '\U{0085}' || c == '\U{00A0}' || c == '\U{1680}'
    || ('\U{2000}' <= c <= '\U{200A}')
    || c == '\U{2028}' || c == '\U{2029}' || c == '\U{202F}' || c == '\U{205F}' || c == '\U{3000}'
  }

  /** Removes leading whitespace. */
  function StripLeft(s: string): (r: string)
    ensures |r| <= |s| && r == s[|s| - |r|..]
    ensures forall k | 0 <= k < |s| - |r| :: IsSpace(s[k])
    ensures r == [] || !IsSpace(r[0])
  {
    if s != [] && IsSpace(s[0]) then StripLeft(s[1..]) else s
  }

  /** Removes trailing whitespace. */
  function StripRight(s: string): (r: string)
    ensures |r| <= |s| && r == s[..|r|]
    ensures forall k | |r| <= k < |s| :: IsSpace(s[k])
    ensures r == [] || !IsSpace(r[|r| - 1])
  {
    if s != [] && IsSpace(s[|s| - 1]) then StripRight(s[..|s| - 1]) else s
  }

  /** str.strip(): s without its leading and trailing whitespace. */
  function Strip(s: string): string
  {
    StripRight(StripLeft(s))
  }

  /** Whether s has no whitespace at either end. */
  predicate Trimmed(s: string)
  {
    s == [] || (!IsSpace(s[0]) && !IsSpace(s[|s| - 1]))
  }

  /**
   * Strip removes exactly a whitespace prefix and a whitespace suffix: the
   * result is the slice s[i..j] where i is the length of the leading run,
   * and everything outside it is whitespace.
   */
  lemma StripIsSlice(s: string)
    ensures var i := |s| - |StripLeft(s)|;
      && i + |Strip(s)| <= |s|
      && Strip(s) == s[i..i + |Strip(s)|]
      && (forall k | 0 <= k < i :: IsSpace(s[k]))
      && (forall k | i + |Strip(s)| <= k < |s| :: IsSpace(s[k]))
  {
    var l := StripLeft(s);
    var r := StripRight(l);
    var i := |s| - |l|;
    StripRightSlice(s, l, i, r);
  }

  /** The trailing part cut by StripRight from the suffix l == s[i..] is a trailing part of s. */
  lemma StripRightSlice(s: string, l: string, i: int, r: string)
    requires 0 <= i <= |s| && l == s[i..] && r == StripRight(l)
    ensures i + |r| <= |s| && r == s[i..i + |r|]
    ensures forall k | i + |r| <= k < |s| :: IsSpace(s[k])
  {
    assert s[i..i + |r|] == l[..|r|];
    forall k | i + |r| <= k < |s|
      ensures IsSpace(s[k])
    {
      assert s[k] == l[k - i];
    }
  }

  /** The result of Strip has no whitespace at either end. */
  lemma StripResultTrimmed(s: string)
    ensures Trimmed(Strip(s))
  {
    var l := StripLeft(s);
    var r := StripRight(l);
    if r != [] {
      assert r[0] == l[0];
    }
  }

  /** A string with no whitespace at either end is left as it is. */
  lemma StripTrimmed(s: string)
    requires Trimmed(s)
    ensures Strip(s) == s
  {
  }

  /** Stripping twice is stripping once. */
  lemma StripIdempotent(s: string)
    ensures Strip(Strip(s)) == Strip(s)
  {
    StripResultTrimmed(s);
    StripTrimmed(Strip(s));
  }

  /** [cid.strip() for cid in s.split(",")] */
  function ParseChatIds(s: string): (ids: seq<string>)
    ensures |ids| == |Split(s, ',')|
    ensures forall i | 0 <= i < |ids| :: ids[i] == Strip(Split(s, ',')[i])
  {
    var parts := Split(s, ',');
    seq(|parts|, i requires 0 <= i < |parts| => Strip(parts[i]))
  }

  /**
   * The ids read back from the entered text: one per comma plus one, none
   * holding a comma, and none with whitespace at either end.
   */
  lemma ParsedIdsShape(s: string)
    ensures |ParseChatIds(s)| == Count(s, ',') + 1
    ensures forall i | 0 <= i < |ParseChatIds(s)| :: ',' !in ParseChatIds(s)[i] && Trimmed(ParseChatIds(s)[i])
  {
    SplitCount(s, ',');
    SplitPartsFree(s, ',');
    var parts := Split(s, ',');
    forall i | 0 <= i < |parts|
      ensures ',' !in ParseChatIds(s)[i] && Trimmed(ParseChatIds(s)[i])
    {
      StripIsSlice(parts[i]);
      StripResultTrimmed(parts[i]);
      var lo := |parts[i]| - |StripLeft(parts[i])|;
      assert forall c | c in parts[i][lo..lo + |Strip(parts[i])|] :: c in parts[i];
    }
  }

  /** Ids without commas and without surrounding whitespace, entered joined by commas, are read back unchanged. */
  lemma ParseJoinedIds(ids: seq<string>)
    requires ids != []
    requires forall i | 0 <= i < |ids| :: ',' !in ids[i] && Trimmed(ids[i])
    ensures ParseChatIds(Join(ids, ',')) == ids
  {
    JoinSplit(ids, ',');
    forall i | 0 <= i < |ids|
      ensures Strip(ids[i]) == ids[i]
    {
      StripTrimmed(ids[i]);
    }
  }
}
