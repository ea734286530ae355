/** Joining and splitting text at a one-character separator (Go's strings.Join and
    strings.Split). Graph paths use '/', staged skips ',' and releases '.'. */
module Text {

  /** strings.Join(parts, sep). */
  function Join(parts: seq<string>, sep: char): string {
    if parts == [] then ""
    else if |parts| == 1 then parts[0]
    else parts[0] + [sep] + Join(parts[1..], sep)
  }

  /** strings.Split(s, sep): never empty, and `[""]` for the empty text. */
  function Split(s: string, sep: char): (parts: seq<string>)
    ensures parts != []
    ensures forall p <- parts :: sep !in p
  {
    if s == "" then [""]
    else
      var rest := Split(s[1..], sep);
      if s[0] == sep then [""] + rest else [[s[0]] + rest[0]] + rest[1..]
  }

  /** Splitting never loses text. */
  lemma {:induction false} JoinSplit(s: string, sep: char)
    ensures Join(Split(s, sep), sep) == s
  {
    if s != "" {
      JoinSplit(s[1..], sep);
      var rest := Split(s[1..], sep);
      if s[0] == sep {
        assert ([""] + rest)[1..] == rest;
        assert Join([""] + rest, sep) == "" + [sep] + Join(rest, sep);
        assert s == [s[0]] + s[1..];
      } else {
        var parts := [[s[0]] + rest[0]] + rest[1..];
        assert parts[1..] == rest[1..];
        assert Join(parts, sep) == [s[0]] + Join(rest, sep);
      }
    }
  }

  /** Text without the separator is one part. */
  lemma {:induction false} SplitOne(p: string, sep: char)
    requires sep !in p
    ensures Split(p, sep) == [p]
  {
    if p != "" {
      SplitOne(p[1..], sep);
      assert p == [p[0]] + p[1..];
      assert [p][1..] == [];
    }
  }

  /** The first part ends at the first separator. */
  lemma {:induction false} SplitFirst(p: string, rest: string, sep: char)
    requires sep !in p
    ensures Split(p + [sep] + rest, sep) == [p] + Split(rest, sep)
  {
    var s := p + [sep] + rest;
    if p == "" {
      assert s[1..] == rest;
    } else {
      SplitFirst(p[1..], rest, sep);
      assert s[1..] == p[1..] + [sep] + rest;
      assert p == [p[0]] + p[1..] && s[0] != sep;
      assert ([p[1..]] + Split(rest, sep))[1..] == Split(rest, sep);
    }
  }

  /** Splitting recovers any non-empty list of separator-free parts. */
  lemma {:induction false} SplitJoin(parts: seq<string>, sep: char)
    requires parts != []
    requires forall p <- parts :: sep !in p
    ensures Split(Join(parts, sep), sep) == parts
  {
    if |parts| == 1 {
      SplitOne(parts[0], sep);
    } else {
      SplitJoin(parts[1..], sep);
      SplitFirst(parts[0], Join(parts[1..], sep), sep);
    }
  }

  /** Splitting a joined list gives the list back exactly when no part holds the separator. */
  lemma SplitJoinExact(parts: seq<string>, sep: char)
    requires parts != []
    ensures Split(Join(parts, sep), sep) == parts <==> forall p <- parts :: sep !in p
  {
    if forall p <- parts :: sep !in p {
      SplitJoin(parts, sep);
    }
  }

  /** The last part can be joined on separately. */
  lemma {:induction false} JoinLast(parts: seq<string>, sep: char)
    requires |parts| > 1
    ensures Join(parts, sep) == Join(parts[..|parts| - 1], sep) + [sep] + parts[|parts| - 1]
  {
    var init, last := parts[..|parts| - 1], parts[|parts| - 1];
    if |parts| == 2 {
      assert parts[1..] == [last] && init == [parts[0]];
    } else {
      JoinLast(parts[1..], sep);
      assert parts[1..][..|parts| - 2] == init[1..];
      assert Join(init, sep) == parts[0] + [sep] + Join(init[1..], sep);
    }
  }
}
