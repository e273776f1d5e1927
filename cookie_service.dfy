/**
 * The shared cookie helper (`window.CookieService.getCookie`).
 *
 * `document.cookie` is a string of `name=value` rows separated by "; ".
 * `getCookie(name)` splits it on "; ", takes the FIRST row that starts with
 * `name + "="`, splits that row on "=" and returns its second piece; when no
 * row matches it returns null (here: None).
 */
module CookieService {
  import opened Wrappers

  const RowSeparator := "; "
  const Equals := "="

  /** `sep` occurs in `s` starting at index `i`. */
  predicate OccursAt(s: string, sep: string, i: nat)
  {
    i + |sep| <= |s| && s[i..i + |sep|] == sep
  }

  ghost predicate Contains(s: string, sep: string)
  {
    exists i: nat :: OccursAt(s, sep, i)
  }

  predicate StartsWith(s: string, prefix: string)
  {
    |prefix| <= |s| && s[..|prefix|] == prefix
  }

  /** `String.prototype.indexOf(sep, from)`: the first occurrence at or after `from`. */
  function IndexOf(s: string, sep: string, from: nat): (r: Option<nat>)
    requires |sep| > 0
    decreases |s| - from
    ensures r.Some? ==> from <= r.value && OccursAt(s, sep, r.value)
    ensures r.Some? ==> forall j: nat :: from <= j < r.value ==> !OccursAt(s, sep, j)
    ensures r.None? ==> forall j: nat :: from <= j ==> !OccursAt(s, sep, j)
  {
    if from + |sep| > |s| then None
    else if s[from..from + |sep|] == sep then Some(from)
    else IndexOf(s, sep, from + 1)
  }

  /** `Array.prototype.join(sep)`. */
  function Join(parts: seq<string>, sep: string): string
  {
    if parts == [] then ""
    else if |parts| == 1 then parts[0]
    else parts[0] + sep + Join(parts[1..], sep)
  }

  /**
   * `String.prototype.split(sep)` for a non-empty separator: cut at each
   * occurrence, scanning left to right. Joining the pieces back gives the
   * input, no piece contains the separator, and there is more than one
   * piece exactly when the separator occurs.
   */
  function Split(s: string, sep: string): (parts: seq<string>)
    requires |sep| > 0
    decreases |s|
    ensures |parts| >= 1
    ensures Join(parts, sep) == s
    ensures forall k :: 0 <= k < |parts| ==> !Contains(parts[k], sep)
    ensures |parts| >= 2 <==> Contains(s, sep)
  {
    var found := IndexOf(s, sep, 0);
    if found.None? then [s]
    else
      var i := found.value;
      var rest := Split(s[i + |sep|..], sep);
      var head := s[..i];
      assert !Contains(head, sep) by {
        forall j: nat ensures !OccursAt(head, sep, j) {
          if j + |sep| <= |head| {
            assert head[j..j + |sep|] == s[j..j + |sep|];
            assert !OccursAt(s, sep, j);
          }
        }
      }
      assert head + sep + s[i + |sep|..] == s by {
        assert s == s[..i] + s[i..i + |sep|] + s[i + |sep|..];
      }
      assert OccursAt(s, sep, i);
      [head] + rest
  }

  /** `Array.prototype.find(row => row.startsWith(prefix))`, as an index. */
  function FindRow(rows: seq<string>, prefix: string): (r: Option<nat>)
    ensures r.Some? ==> r.value < |rows| && StartsWith(rows[r.value], prefix)
    ensures r.Some? ==> forall k :: 0 <= k < r.value ==> !StartsWith(rows[k], prefix)
    ensures r.None? <==> forall k :: 0 <= k < |rows| ==> !StartsWith(rows[k], prefix)
  {
    if rows == [] then None
    else if StartsWith(rows[0], prefix) then Some(0)
    else match FindRow(rows[1..], prefix)
      case None => None
      case Some(k) => Some(k + 1)
  }

  function Rows(cookie: string): seq<string>
  {
    Split(cookie, RowSeparator)
  }

  /**
   * `getCookie(name)`. None exactly when no row starts with `name=`. A value
   * never contains "=": the row is cut at its second "=". When the name has
   * no "=" of its own, the first matching row reads `name=` + value and then
   * ends or continues with "=".
   */
  function GetCookie(cookie: string, name: string): (r: Option<string>)
    ensures r.None? <==>
      forall k :: 0 <= k < |Rows(cookie)| ==> !StartsWith(Rows(cookie)[k], name + Equals)
    ensures r.Some? ==> '=' !in r.value
    ensures r.Some? && '=' !in name ==>
      exists k :: 0 <= k < |Rows(cookie)| && FirstMatch(Rows(cookie), name, k) && RowHoldsValue(Rows(cookie)[k], name, r.value)
  {
    var rows := Rows(cookie);
    match FindRow(rows, name + Equals)
    case None => None
    case Some(k) =>
      var row := rows[k];
      assert OccursAt(row, Equals, |name|) by {
        assert row[|name|..|name| + 1] == (name + Equals)[|name|..];
      }
      var pieces := Split(row, Equals);
      NoEqualsInPiece(pieces, 1);
      ValueOfMatchingRow(row, name, pieces);
      Some(pieces[1])
  }

  /** Row `k` is the first row starting with `name=`. */
  predicate FirstMatch(rows: seq<string>, name: string, k: nat)
    requires k < |rows|
  {
    StartsWith(rows[k], name + Equals) &&
    forall j :: 0 <= j < k ==> !StartsWith(rows[j], name + Equals)
  }

  /** `row` reads `name=value`, followed by nothing or by a further "=". */
  predicate RowHoldsValue(row: string, name: string, value: string)
  {
    var n := |name + Equals + value|;
    StartsWith(row, name + Equals + value) && (|row| == n || row[n] == '=')
  }

  lemma NoEqualsInPiece(pieces: seq<string>, k: nat)
    requires k < |pieces|
    requires !Contains(pieces[k], Equals)
    ensures '=' !in pieces[k]
  {
    if '=' in pieces[k] {
      var j :| 0 <= j < |pieces[k]| && pieces[k][j] == '=';
      assert OccursAt(pieces[k], Equals, j);
    }
  }

  lemma ValueOfMatchingRow(row: string, name: string, pieces: seq<string>)
    requires StartsWith(row, name + Equals)
    requires pieces == Split(row, Equals) && |pieces| >= 2
    ensures '=' !in name ==> RowHoldsValue(row, name, pieces[1])
  {
    if '=' !in name {
      NoEqualsInPiece(pieces, 0);
      NoEqualsInPiece(pieces, 1);
      var tail := Join(pieces[1..], Equals);
      assert row == pieces[0] + Equals + tail;
      assert row == name + Equals + row[|name| + 1..] by {
        assert row[..|name| + 1] == name + Equals;
      }
      SameNameBeforeEquals(pieces[0], name, tail, row[|name| + 1..]);
      JoinTail(pieces[1..]);
      HoldsLeadingValue(name, pieces[1], tail);
    }
  }

  /** A join of pieces is its first piece, possibly followed by "=" and more. */
  lemma JoinTail(parts: seq<string>)
    requires |parts| >= 1
    ensures var s := Join(parts, Equals);
      s == parts[0] || s == parts[0] + Equals + Join(parts[1..], Equals)
  {
  }

  /** A row `name=` + `tail`, where `tail` is `v` optionally followed by "=" and more, holds `v`. */
  lemma HoldsLeadingValue(name: string, v: string, tail: string)
    requires tail == v || exists more :: tail == v + Equals + more
    ensures RowHoldsValue(name + Equals + tail, name, v)
  {
    var row := name + Equals + tail;
    var n := |name + Equals + v|;
    assert row[..n] == name + Equals + v;
    if tail != v {
      var more :| tail == v + Equals + more;
      assert row == name + Equals + v + Equals + more;
      assert row[n] == '=';
    }
  }

  /** Two texts without "=" that are both followed by "=" in the same string are the same text. */
  lemma SameNameBeforeEquals(a: string, b: string, x: string, y: string)
    requires a + Equals + x == b + Equals + y
    requires '=' !in a && '=' !in b
    ensures a == b && x == y
  {
    var s := a + Equals + x;
    assert forall i :: 0 <= i < |a| ==> s[i] == a[i];
    assert forall i :: 0 <= i < |b| ==> s[i] == b[i];
    assert s[|a|] == '=' && s[|b|] == '=';
    assert |a| == |b|;
    assert a == s[..|a|] == b;
    assert x == s[|a| + 1..] == y;
  }

  // ---------------------------------------------------------------------
  // The cookie jar behind `document.cookie`, and the lookup round trip.
  // ---------------------------------------------------------------------

  datatype Cookie = Cookie(name: string, value: string)

  /** Neither the name nor the value holds ";" or "=". */
  predicate PlainCookie(c: Cookie)
  {
    ';' !in c.name && '=' !in c.name && ';' !in c.value && '=' !in c.value
  }

  function RowOf(c: Cookie): string
  {
    c.name + Equals + c.value
  }

  function RowsOf(jar: seq<Cookie>): (rows: seq<string>)
    ensures |rows| == |jar| && forall i :: 0 <= i < |jar| ==> rows[i] == RowOf(jar[i])
  {
    seq(|jar|, i requires 0 <= i < |jar| => RowOf(jar[i]))
  }

  /** What `document.cookie` reads for a jar: its rows joined by "; ". */
  function Serialize(jar: seq<Cookie>): string
  {
    Join(RowsOf(jar), RowSeparator)
  }

  /** The value of the first cookie called `name`. */
  function Lookup(jar: seq<Cookie>, name: string): (r: Option<string>)
    ensures r.None? <==> forall i :: 0 <= i < |jar| ==> jar[i].name != name
  {
    if jar == [] then None
    else if jar[0].name == name then Some(jar[0].value)
    else Lookup(jar[1..], name)
  }

  lemma FirstOccurrence(s: string, sep: string, i: nat)
    requires |sep| > 0 && OccursAt(s, sep, i)
    requires forall j: nat :: j < i ==> !OccursAt(s, sep, j)
    ensures IndexOf(s, sep, 0) == Some(i)
  {
  }

  /** Splitting rows joined by `sep` gives the rows back, when no row holds `sep`'s first character. */
  lemma {:induction false} SplitOfJoin(parts: seq<string>, sep: string)
    requires |sep| > 0 && |parts| >= 1
    requires forall k :: 0 <= k < |parts| ==> sep[0] !in parts[k]
    ensures Split(Join(parts, sep), sep) == parts
  {
    var s := Join(parts, sep);
    if |parts| == 1 {
      NoOccurrenceBefore(s, sep, "", |s|);
      assert IndexOf(s, sep, 0).None?;
    } else {
      var p0 := parts[0];
      var rest := Join(parts[1..], sep);
      assert s == p0 + sep + rest;
      assert OccursAt(s, sep, |p0|) by {
        assert s[|p0|..|p0| + |sep|] == sep;
      }
      NoOccurrenceBefore(p0, sep, sep + rest, |p0|);
      assert p0 + (sep + rest) == s;
      FirstOccurrence(s, sep, |p0|);
      assert s[|p0| + |sep|..] == rest;
      SplitOfJoin(parts[1..], sep);
    }
  }

  /** No occurrence of `sep` starts inside a prefix free of `sep`'s first character. */
  lemma NoOccurrenceBefore(head: string, sep: string, tail: string, bound: nat)
    requires |sep| > 0 && sep[0] !in head && bound == |head|
    ensures tail == "" ==> forall j: nat :: !OccursAt(head + tail, sep, j)
    ensures forall j: nat :: j < bound ==> !OccursAt(head + tail, sep, j)
  {
    var s := head + tail;
    forall j: nat | j < |head| || tail == "" ensures !OccursAt(s, sep, j) {
      if j + |sep| <= |s| {
        assert s[j..j + |sep|][0] == s[j] == head[j];
      }
    }
  }

  /**
   * The lookup round trip: reading a jar of plain cookies back through
   * `getCookie` finds the first cookie of that name, and only a cookie of
   * exactly that name: a name that is only a prefix of a stored name never
   * matches.
   */
  lemma GetCookieOfSerialized(jar: seq<Cookie>, name: string)
    requires forall i :: 0 <= i < |jar| ==> PlainCookie(jar[i])
    requires '=' !in name
    ensures GetCookie(Serialize(jar), name) == Lookup(jar, name)
  {
    if jar == [] {
      assert Rows(Serialize(jar)) == [""] by { assert IndexOf("", RowSeparator, 0).None?; }
      assert !StartsWith("", name + Equals);
    } else {
      SerializedRows(jar);
      LookupMatchesRows(jar, name);
      var k := FindRow(RowsOf(jar), name + Equals);
      if k.Some? {
        PlainRowSplits(jar[k.value]);
      }
    }
  }

  /** A non-empty jar of plain cookies reads back as its own rows. */
  lemma SerializedRows(jar: seq<Cookie>)
    requires jar != [] && forall i :: 0 <= i < |jar| ==> PlainCookie(jar[i])
    ensures Rows(Serialize(jar)) == RowsOf(jar)
  {
    var rows := RowsOf(jar);
    forall k | 0 <= k < |rows| ensures RowSeparator[0] !in rows[k] {
      assert rows[k] == jar[k].name + Equals + jar[k].value;
    }
    SplitOfJoin(rows, RowSeparator);
  }

  /** A plain cookie's row cut on "=" gives its name and its value. */
  lemma PlainRowSplits(c: Cookie)
    requires PlainCookie(c)
    ensures Split(RowOf(c), Equals) == [c.name, c.value]
  {
    SplitOfJoin([c.name, c.value], Equals);
    assert Join([c.name, c.value], Equals) == RowOf(c);
  }

  lemma {:induction false} LookupMatchesRows(jar: seq<Cookie>, name: string)
    requires forall i :: 0 <= i < |jar| ==> PlainCookie(jar[i])
    requires '=' !in name
    ensures var rows := RowsOf(jar);
      match FindRow(rows, name + Equals)
      case None => Lookup(jar, name).None?
      case Some(k) => k < |jar| && jar[k].name == name && Lookup(jar, name) == Some(jar[k].value)
  {
    var rows := RowsOf(jar);
    forall i | 0 <= i < |jar| ensures StartsWith(rows[i], name + Equals) <==> jar[i].name == name {
      RowStartsWithName(jar[i], name);
    }
    if jar != [] {
      assert rows[1..] == RowsOf(jar[1..]);
      if jar[0].name != name {
        LookupMatchesRows(jar[1..], name);
      }
    }
  }

  lemma RowStartsWithName(c: Cookie, name: string)
    requires PlainCookie(c) && '=' !in name
    ensures StartsWith(RowOf(c), name + Equals) <==> c.name == name
  {
    var row := RowOf(c);
    if StartsWith(row, name + Equals) {
      assert row == name + Equals + row[|name| + 1..] by {
        assert row[..|name| + 1] == name + Equals;
      }
      SameNameBeforeEquals(c.name, name, c.value, row[|name| + 1..]);
    }
  }
}
