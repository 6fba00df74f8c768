/**
 * The suggested file name of the download button
 * (components/DowloadButton.tsx): `url.split('/').pop() || 'download'`,
 * the last `/`-separated segment of the URL, or `download` when that
 * segment is empty.
 */
module Download {

  /**
   * `s.split('/')`: the maximal slash-free runs of `s`, in order. There is
   * always at least one part; the empty string splits into `[""]`.
   */
  function Split(s: string): (parts: seq<string>)
    ensures |parts| >= 1
    ensures forall i :: 0 <= i < |parts| ==> '/' !in parts[i]
  {
    if s == [] then [""]
    else
      var init := Split(s[..|s| - 1]);
      var c := s[|s| - 1];
      if c == '/' then init + [""]
      else init[..|init| - 1] + [init[|init| - 1] + [c]]
  }

  /** `parts.join('/')`. */
  function Join(parts: seq<string>): string
    requires |parts| >= 1
  {
    if |parts| == 1 then parts[0] else Join(parts[..|parts| - 1]) + "/" + parts[|parts| - 1]
  }

  /** `split('/').pop()`: the last part. */
  function LastSegment(s: string): (r: string)
    ensures '/' !in r
  {
    var parts := Split(s);
    parts[|parts| - 1]
  }

  /** The file name the download link suggests: never empty and never holding a `/`. */
  function FileName(url: string): (name: string)
    ensures name != "" && '/' !in name
  {
    var last := LastSegment(url);
    if last == "" then "download" else last
  }

  /** Joining the parts with `/` gives the string back. */
  lemma {:induction false} SplitJoin(s: string)
    ensures Join(Split(s)) == s
    decreases |s|
  {
    if s != [] {
      var front, c := s[..|s| - 1], s[|s| - 1];
      SplitJoin(front);
      SplitLast(front, c);
      DropLast(s);
    }
  }

  lemma DropLast<T>(s: seq<T>)
    requires s != []
    ensures s[..|s| - 1] + [s[|s| - 1]] == s
  {
  }

  /** `Split` read from the back: a `/` opens a new part, any other character extends the last one. */
  lemma SplitSnoc(t: string, c: char)
    ensures var init := Split(t);
      Split(t + [c]) == if c == '/' then init + [""] else init[..|init| - 1] + [init[|init| - 1] + [c]]
  {
    var s := t + [c];
    assert s[..|s| - 1] == t && s[|s| - 1] == c;
  }

  /** One step of `SplitJoin`: the last character extends the last part or, for a `/`, opens a new one. */
  lemma SplitLast(front: string, c: char)
    requires Join(Split(front)) == front
    ensures Join(Split(front + [c])) == front + [c]
  {
    var init := Split(front);
    SplitSnoc(front, c);
    if c == '/' {
      JoinExtend(init, "");
      assert front + "/" + "" == front + [c];
    } else {
      ExtendLastPart(init, c);
    }
  }

  /** Appending a character to the last part appends it to the join. */
  lemma ExtendLastPart(parts: seq<string>, c: char)
    requires |parts| >= 1
    ensures Join(parts[..|parts| - 1] + [parts[|parts| - 1] + [c]]) == Join(parts) + [c]
  {
    var m := |parts|;
    var init, last := parts[..m - 1], parts[m - 1];
    DropLast(parts);
    if m == 1 {
      assert init + [last + [c]] == [last + [c]];
    } else {
      JoinExtend(init, last + [c]);
      JoinExtend(init, last);
      AppendAssoc(Join(init), last, c);
    }
  }

  lemma AppendAssoc(a: string, b: string, c: char)
    ensures a + "/" + (b + [c]) == a + "/" + b + [c]
  {
  }

  /** Appending a part appends `/` and that part to the join. */
  lemma JoinExtend(parts: seq<string>, p: string)
    requires |parts| >= 1
    ensures Join(parts + [p]) == Join(parts) + "/" + p
  {
    assert (parts + [p])[..|parts|] == parts;
  }

  /** A slash-free string is a single part. */
  lemma {:induction false} SplitSlashFree(s: string)
    requires '/' !in s
    ensures Split(s) == [s]
    decreases |s|
  {
    if s != [] {
      var front := s[..|s| - 1];
      assert '/' !in front by {
        forall i | 0 <= i < |front| ensures front[i] != '/' { assert front[i] == s[i]; }
      }
      SplitSlashFree(front);
      assert s == front + [s[|s| - 1]];
    }
  }

  /** Appending `/` and a slash-free text appends that text as a new part. */
  lemma {:induction false} SplitAppendPart(prefix: string, p: string)
    requires '/' !in p
    ensures Split(prefix + "/" + p) == Split(prefix) + [p]
    decreases |p|
  {
    if p == [] {
      SplitSnoc(prefix, '/');
      assert prefix + "/" + p == prefix + ['/'];
    } else {
      var front, c := p[..|p| - 1], p[|p| - 1];
      DropLast(p);
      assert '/' !in front by {
        forall i | 0 <= i < |front| ensures front[i] != '/' { assert front[i] == p[i]; }
      }
      SplitAppendPart(prefix, front);
      var t := prefix + "/" + front;
      SplitSnoc(t, c);
      var init := Split(prefix) + [front];
      assert init[..|init| - 1] == Split(prefix);
      AppendAssoc(prefix, front, c);
    }
  }

  /** Splitting a join of slash-free parts gives the parts back. */
  lemma {:induction false} JoinSplit(parts: seq<string>)
    requires |parts| >= 1
    requires forall i :: 0 <= i < |parts| ==> '/' !in parts[i]
    ensures Split(Join(parts)) == parts
    decreases |parts|
  {
    if |parts| == 1 {
      SplitSlashFree(parts[0]);
    } else {
      var init := parts[..|parts| - 1];
      JoinSplit(init);
      SplitAppendPart(Join(init), parts[|parts| - 1]);
      DropLast(parts);
    }
  }

  /**
   * The last part is a slash-free suffix of the string that is either the
   * whole string or preceded by a `/`.
   */
  lemma {:induction false} LastSegmentIsTail(s: string)
    ensures var l := LastSegment(s);
      && |l| <= |s| && s[|s| - |l|..] == l && '/' !in l
      && (|l| == |s| || s[|s| - |l| - 1] == '/')
    decreases |s|
  {
    if s != [] {
      var front := s[..|s| - 1];
      var c := s[|s| - 1];
      LastSegmentIsTail(front);
      var l0 := LastSegment(front);
      if c != '/' {
        var init := Split(front);
        assert LastSegment(s) == l0 + [c];
        assert s[|s| - |l0| - 1..] == front[|front| - |l0|..] + [c];
        if |l0| < |front| {
          assert s[|s| - |l0| - 2] == front[|front| - |l0| - 1];
        }
      }
    }
  }

  /** With a `/` at `k` and none after it, the name is the text after `k`, or `download` when that is empty. */
  lemma {:induction false} FileNameAfterLastSlash(url: string, k: int)
    requires 0 <= k < |url| && url[k] == '/' && '/' !in url[k + 1..]
    ensures FileName(url) == if url[k + 1..] == "" then "download" else url[k + 1..]
  {
    LastSegmentIsTail(url);
    var l := LastSegment(url);
    var start := |url| - |l|;
    assert l == url[k + 1..];
  }

  /** A non-empty URL without `/` is its own file name. */
  lemma {:induction false} FileNameWithoutSlash(url: string)
    requires url != "" && '/' !in url
    ensures FileName(url) == url
  {
    SplitSlashFree(url);
  }

  /** The empty URL and a URL ending in `/` both suggest `download`. */
  lemma {:induction false} FileNameDefault(url: string)
    requires url == "" || url[|url| - 1] == '/'
    ensures FileName(url) == "download"
  {
    if url != "" {
      assert Split(url) == Split(url[..|url| - 1]) + [""];
    }
  }

  /** The name is always a suffix of the URL or `download`. */
  lemma {:induction false} FileNameSuffixOrDefault(url: string)
    ensures var name := FileName(url);
      name == "download" || (|name| <= |url| && url[|url| - |name|..] == name)
  {
    LastSegmentIsTail(url);
  }
}
