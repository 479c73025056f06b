/** Usage counter keys (subscription-core/usage/meter.go, flusher.go): printing and parsing. */
module UsageKeys {
  import opened Collections

  /** What is billed: a subject's use of a feature in a monthly period. */
  datatype Usage = Usage(subject: string, feature: string, period: string)

  const PREFIX: string := "usage:"

  function Key(u: Usage): string {
    PREFIX + u.subject + ":" + u.feature + ":" + u.period
  }

  /** A character more in front of a split text. */
  function Prepend(c: char, parts: seq<string>): (r: seq<string>)
    requires |parts| >= 1
    ensures |r| >= 1
  {
    if c == ':' then [""] + parts else [[c] + parts[0]] + parts[1..]
  }

  /** Go's strings.Split with ":". */
  function Split(s: string): (parts: seq<string>)
    ensures |parts| >= 1
  {
    if s == [] then [""] else Prepend(s[0], Split(s[1..]))
  }

  /** Go's strings.Join with ":". */
  function Join(parts: seq<string>): string {
    if parts == [] then "" else if |parts| == 1 then parts[0] else parts[0] + ":" + Join(parts[1..])
  }

  function Parse(key: string): Option<Usage> {
    if |key| < |PREFIX| || key[..|PREFIX|] != PREFIX then None
    else
      var parts := Split(key[|PREFIX|..]);
      var n := |parts|;
      if n < 3 then None
      else
        var u := Usage(Join(parts[..n - 2]), parts[n - 2], parts[n - 1]);
        if u.subject == "" || u.feature == "" || u.period == "" then None else Some(u)
  }

  /** The usages whose keys read back as themselves. */
  predicate IsClean(u: Usage) {
    && u.subject != ""
    && u.feature != "" && ':' !in u.feature
    && u.period != "" && ':' !in u.period
  }

  // ---------------------------------------------------------------- splitting and joining

  lemma {:induction false} SplitOfPlain(s: string)
    requires ':' !in s
    ensures Split(s) == [s]
  {
    if s != [] {
      SplitOfPlain(s[1..]);
      assert [s[0]] + s[1..] == s;
    }
  }

  lemma PrependToConcat(c: char, a: seq<string>, b: seq<string>)
    requires |a| >= 1
    ensures Prepend(c, a + b) == Prepend(c, a) + b
  {
  }

  lemma {:induction false} SplitAtColon(a: string, b: string)
    ensures Split(a + ":" + b) == Split(a) + Split(b)
  {
    var whole := a + ":" + b;
    if a == [] {
      assert whole[1..] == b;
      assert Split(whole) == Prepend(':', Split(b)) == [""] + Split(b);
    } else {
      SplitAtColon(a[1..], b);
      assert whole[1..] == a[1..] + ":" + b;
      assert Split(whole) == Prepend(a[0], Split(a[1..]) + Split(b));
      PrependToConcat(a[0], Split(a[1..]), Split(b));
    }
  }

  lemma {:induction false} PartsArePlain(s: string, i: nat)
    requires i < |Split(s)|
    ensures ':' !in Split(s)[i]
  {
    if s != [] {
      if s[0] == ':' {
        if i > 0 {
          PartsArePlain(s[1..], i - 1);
        }
      } else {
        PartsArePlain(s[1..], i);
      }
    }
  }

  lemma JoinOfPrepend(c: char, parts: seq<string>)
    requires |parts| >= 1
    ensures Join(Prepend(c, parts)) == [c] + Join(parts)
  {
    if c == ':' {
      assert ([""] + parts)[1..] == parts;
      ConcatAssociates("", ":", Join(parts));
    } else {
      assert Prepend(c, parts)[1..] == parts[1..];
      ConcatAssociates([c], parts[0], ":");
      ConcatAssociates([c], parts[0] + ":", Join(parts[1..]));
    }
  }

  lemma {:induction false} JoinOfSplit(s: string)
    ensures Join(Split(s)) == s
  {
    if s != [] {
      JoinOfSplit(s[1..]);
      JoinOfPrepend(s[0], Split(s[1..]));
    }
  }

  /** Joining one part more at the end. */
  lemma {:induction false} JoinOfLast(parts: seq<string>, last: string)
    requires parts != []
    ensures Join(parts + [last]) == Join(parts) + ":" + last
  {
    assert (parts + [last])[1..] == parts[1..] + [last];
    if |parts| > 1 {
      JoinOfLast(parts[1..], last);
    } else {
      assert parts[1..] + [last] == [last];
    }
  }

  // ---------------------------------------------------------------- the round trip

  lemma ParseOfKey(u: Usage)
    requires IsClean(u)
    ensures Parse(Key(u)) == Some(u)
  {
    var tail := u.subject + ":" + u.feature + ":" + u.period;
    assert Key(u) == PREFIX + tail && Key(u)[|PREFIX|..] == tail;
    SplitAtColon(u.subject + ":" + u.feature, u.period);
    SplitAtColon(u.subject, u.feature);
    SplitOfPlain(u.feature);
    SplitOfPlain(u.period);
    var parts := Split(tail);
    assert parts == Split(u.subject) + [u.feature] + [u.period];
    assert parts[..|parts| - 2] == Split(u.subject);
    JoinOfSplit(u.subject);
  }

  lemma KeyOfParse(key: string, u: Usage)
    requires Parse(key) == Some(u)
    ensures IsClean(u) && key == Key(u)
  {
    var tail := key[|PREFIX|..];
    var parts := Split(tail);
    var n := |parts|;
    PartsArePlain(tail, n - 1);
    PartsArePlain(tail, n - 2);
    JoinOfSplit(tail);
    JoinOfLastTwo(parts);
    assert key == PREFIX + tail;
  }

  lemma JoinOfLastTwo(parts: seq<string>)
    requires |parts| >= 3
    ensures var n := |parts|;
            Join(parts) == Join(parts[..n - 2]) + ":" + parts[n - 2] + ":" + parts[n - 1]
  {
    var n := |parts|;
    assert parts == parts[..n - 1] + [parts[n - 1]];
    JoinOfLast(parts[..n - 1], parts[n - 1]);
    assert parts[..n - 1] == parts[..n - 2] + [parts[n - 2]];
    JoinOfLast(parts[..n - 2], parts[n - 2]);
  }

  /** A key is read as a usage exactly when it is that usage's key and the usage is clean: the
      subject is not empty, and feature and period are neither empty nor hold a colon. */
  lemma ParseInvertsKey(key: string, u: Usage)
    ensures Parse(key) == Some(u) <==> IsClean(u) && key == Key(u)
  {
    if Parse(key) == Some(u) {
      KeyOfParse(key, u);
    } else if IsClean(u) && key == Key(u) {
      ParseOfKey(u);
    }
  }

  /** Two usages of colon-free features never share a key. */
  lemma KeysAreDistinct(u: Usage, v: Usage)
    requires IsClean(u) && IsClean(v) && Key(u) == Key(v)
    ensures u == v
  {
    ParseOfKey(u);
    ParseOfKey(v);
  }

  /** With a colon in the feature, one subject's usage is billed to another. */
  lemma ColonMovesUsage()
    ensures Parse(Key(Usage("a", "b:c", "2026-07"))) == Some(Usage("a:b", "c", "2026-07"))
  {
    ParseOfKey(Usage("a:b", "c", "2026-07"));
    assert Key(Usage("a", "b:c", "2026-07")) == Key(Usage("a:b", "c", "2026-07"));
  }
}
