/**
 * How the relay finds the destination in the request path
 * "/relay/<id>/<token>": leading slashes are dropped, the rest is split on
 * "/" the way String.split does it, and exactly three segments are accepted.
 */
module RequestPath {
  import opened Wrappers

  /** A webhook destination: the Discord webhook id and its secret token. */
  datatype Destination = Destination(id: string, token: string)

  /** s with every leading '/' removed. */
  function TrimLeadingSlashes(s: string): (r: string)
    ensures |r| <= |s| && r == s[|s| - |r|..]
    ensures r == [] || r[0] != '/'
    ensures forall k :: 0 <= k < |s| - |r| ==> s[k] == '/'
    decreases |s|
  {
    if s != [] && s[0] == '/' then TrimLeadingSlashes(s[1..]) else s
  }

  /** The loop that drops leading slashes from the request path. */
  method StripLeadingSlashes(path: string) returns (p: string)
    ensures p == TrimLeadingSlashes(path)
  {
    p := path;
    while |p| > 0 && p[0] == '/'
      invariant TrimLeadingSlashes(p) == TrimLeadingSlashes(path)
      decreases |p|
    {
      p := p[1..];
    }
  }

  /** Every piece of s between separators, empty pieces included. */
  function SplitAll(s: string, sep: char): (parts: seq<string>)
    ensures |parts| >= 1
    ensures forall k :: 0 <= k < |parts| ==> sep !in parts[k]
    decreases |s|
  {
    if s == [] then [""]
    else
      var rest := SplitAll(s[1..], sep);
      if s[0] == sep then [""] + rest else [[s[0]] + rest[0]] + rest[1..]
  }

  /** The pieces put back together with the separator between them. */
  function Join(parts: seq<string>, sep: char): string
    requires |parts| >= 1
    decreases |parts|
  {
    if |parts| == 1 then parts[0] else parts[0] + [sep] + Join(parts[1..], sep)
  }

  /** The list with its trailing empty strings removed. */
  function DropTrailingEmpty(parts: seq<string>): (r: seq<string>)
    ensures |r| <= |parts| && r == parts[..|r|]
    ensures r == [] || r[|r| - 1] != []
    ensures forall k :: |r| <= k < |parts| ==> parts[k] == []
    decreases |parts|
  {
    if parts != [] && parts[|parts| - 1] == [] then DropTrailingEmpty(parts[..|parts| - 1]) else parts
  }

  /**
   * String.split with a one-character pattern and no limit: the text itself
   * when the separator does not occur, otherwise all pieces without the
   * trailing empty ones.
   */
  function JavaSplit(s: string, sep: char): seq<string> {
    if sep !in s then [s] else DropTrailingEmpty(SplitAll(s, sep))
  }

  /** The destination named by a request path, if it has exactly three segments. */
  function ParsePath(path: string): Option<Destination> {
    var args := JavaSplit(TrimLeadingSlashes(path), '/');
    if |args| != 3 then None else Some(Destination(args[1], args[2]))
  }

  /** n copies of the character c. */
  function Repeat(c: char, n: nat): (s: string)
    ensures |s| == n && forall k :: 0 <= k < n ==> s[k] == c
  {
    if n == 0 then [] else [c] + Repeat(c, n - 1)
  }

  function EmptyStrings(n: nat): (parts: seq<string>)
    ensures |parts| == n && forall k :: 0 <= k < n ==> parts[k] == []
  {
    if n == 0 then [] else EmptyStrings(n - 1) + [""]
  }

  /** Splitting and joining again gives the text back. */
  lemma {:induction false} JoinSplitAll(s: string, sep: char)
    ensures Join(SplitAll(s, sep), sep) == s
    decreases |s|
  {
    if s != [] {
      var rest := SplitAll(s[1..], sep);
      JoinSplitAll(s[1..], sep);
      if s[0] == sep {
        assert ([""] + rest)[1..] == rest;
      } else if |rest| == 1 {
        assert Join(rest, sep) == rest[0];
      } else {
        var parts := [[s[0]] + rest[0]] + rest[1..];
        assert parts[1..] == rest[1..];
        assert Join(rest, sep) == rest[0] + [sep] + Join(rest[1..], sep);
      }
    }
  }

  /** Joining pieces that hold no separator and splitting again gives the pieces back. */
  lemma {:induction false} SplitAllJoin(parts: seq<string>, sep: char)
    requires |parts| >= 1
    requires forall k :: 0 <= k < |parts| ==> sep !in parts[k]
    ensures SplitAll(Join(parts, sep), sep) == parts
    decreases |parts|, |parts[0]|
  {
    if |parts| == 1 {
      SplitAllPiece(parts[0], sep);
    } else if parts[0] == [] {
      SplitAllJoin(parts[1..], sep);
      SplitJoinEmptyHead(parts, sep);
    } else {
      var shorter := ShorterHead(parts, sep);
      SplitAllJoin(shorter, sep);
      SplitJoinCharHead(parts, sep);
    }
  }

  /** The pieces with the first character of the first piece removed; still free of the separator. */
  function ShorterHead(parts: seq<string>, sep: char): (shorter: seq<string>)
    requires |parts| >= 2 && parts[0] != []
    requires forall k :: 0 <= k < |parts| ==> sep !in parts[k]
    ensures |shorter| == |parts| && |shorter[0]| < |parts[0]|
    ensures forall k :: 0 <= k < |shorter| ==> sep !in shorter[k]
  {
    var shorter := [parts[0][1..]] + parts[1..];
    assert forall k :: 1 <= k < |shorter| ==> shorter[k] == parts[k];
    assert parts[0] == [parts[0][0]] + shorter[0];
    shorter
  }

  /** One step of SplitAllJoin: an empty first piece. */
  lemma SplitJoinEmptyHead(parts: seq<string>, sep: char)
    requires |parts| >= 2 && parts[0] == []
    requires SplitAll(Join(parts[1..], sep), sep) == parts[1..]
    ensures SplitAll(Join(parts, sep), sep) == parts
  {
    var tail := Join(parts[1..], sep);
    assert Join(parts, sep) == [sep] + tail;
    SplitAllCons(sep, tail, sep);
    assert [""] + parts[1..] == parts;
  }

  /** One step of SplitAllJoin: a first piece that starts with a character other than the separator. */
  lemma SplitJoinCharHead(parts: seq<string>, sep: char)
    requires |parts| >= 2 && parts[0] != [] && parts[0][0] != sep
    requires SplitAll(Join([parts[0][1..]] + parts[1..], sep), sep) == [parts[0][1..]] + parts[1..]
    ensures SplitAll(Join(parts, sep), sep) == parts
  {
    var c := parts[0][0];
    var shorter := [parts[0][1..]] + parts[1..];
    JoinShorterHead(parts, sep);
    SplitAllCons(c, Join(shorter, sep), sep);
    assert shorter[0] == parts[0][1..] && shorter[1..] == parts[1..];
    assert [c] + shorter[0] == parts[0];
    assert [[c] + shorter[0]] + shorter[1..] == parts;
  }

  /** Joining pieces whose first piece is not empty: its first character, then the join with that character removed. */
  lemma JoinShorterHead(parts: seq<string>, sep: char)
    requires |parts| >= 2 && parts[0] != []
    ensures Join(parts, sep) == [parts[0][0]] + Join([parts[0][1..]] + parts[1..], sep)
  {
    var shorter := [parts[0][1..]] + parts[1..];
    assert shorter[0] == parts[0][1..] && shorter[1..] == parts[1..];
    assert parts[0] == [parts[0][0]] + parts[0][1..];
  }

  /** Splitting a text that starts with c: a new empty piece if c is the separator, else c joins the first piece. */
  lemma SplitAllCons(c: char, s: string, sep: char)
    ensures var rest := SplitAll(s, sep);
      SplitAll([c] + s, sep) == if c == sep then [""] + rest else [[c] + rest[0]] + rest[1..]
  {
    assert ([c] + s)[1..] == s;
  }

  lemma {:induction false} SplitAllPiece(s: string, sep: char)
    requires sep !in s
    ensures SplitAll(s, sep) == [s]
    decreases |s|
  {
    if s != [] {
      SplitAllPiece(s[1..], sep);
      assert [s[0]] + s[1..] == s;
    }
  }

  lemma {:induction false} JoinEmptyTail(parts: seq<string>, n: nat, sep: char)
    requires |parts| >= 1
    ensures Join(parts + EmptyStrings(n), sep) == Join(parts, sep) + Repeat(sep, n)
    decreases n
  {
    if n == 0 {
      assert parts + EmptyStrings(0) == parts;
    } else {
      var shorter := parts + EmptyStrings(n - 1);
      assert parts + EmptyStrings(n) == shorter + [""];
      calc {
        Join(parts + EmptyStrings(n), sep);
        Join(shorter + [""], sep);
        { JoinSnocEmpty(shorter, sep); }
        Join(shorter, sep) + [sep];
        { JoinEmptyTail(parts, n - 1, sep); }
        (Join(parts, sep) + Repeat(sep, n - 1)) + [sep];
        Join(parts, sep) + (Repeat(sep, n - 1) + [sep]);
        { RepeatSnoc(sep, n - 1); }
        Join(parts, sep) + Repeat(sep, n);
      }
    }
  }

  lemma RepeatSnoc(c: char, n: nat)
    ensures Repeat(c, n) + [c] == Repeat(c, n + 1)
  {
  }

  lemma {:induction false} JoinSnocEmpty(parts: seq<string>, sep: char)
    requires |parts| >= 1
    ensures Join(parts + [""], sep) == Join(parts, sep) + [sep]
    decreases |parts|
  {
    if |parts| == 1 {
      assert (parts + [""])[1..] == [""];
    } else {
      assert (parts + [""])[1..] == parts[1..] + [""];
      JoinSnocEmpty(parts[1..], sep);
    }
  }

  /** Removing leading slashes stops at the first other character. */
  lemma TrimAfterSlashes(n: nat, t: string)
    requires t == [] || t[0] != '/'
    ensures TrimLeadingSlashes(Repeat('/', n) + t) == t
  {
    var s := Repeat('/', n) + t;
    var r := TrimLeadingSlashes(s);
    assert forall k :: 0 <= k < n ==> s[k] == '/';
    assert n < |s| ==> s[n] == t[0];
    assert |r| == |t|;
    assert r == s[n..] == t;
  }

  /** The text after the leading slashes splits into exactly its three segments. */
  lemma SplitThree(first: string, id: string, token: string, trail: nat)
    requires '/' !in first && '/' !in id && '/' !in token && token != []
    ensures JavaSplit(first + "/" + id + "/" + token + Repeat('/', trail), '/') == [first, id, token]
  {
    var t := first + "/" + id + "/" + token + Repeat('/', trail);
    var parts := [first, id, token];
    JoinThree(first, id, token, '/');
    JoinEmptyTail(parts, trail, '/');
    var all := parts + EmptyStrings(trail);
    forall k | 0 <= k < |all| ensures '/' !in all[k] {
      if k >= 3 { assert all[k] == EmptyStrings(trail)[k - 3]; }
    }
    SplitAllJoin(all, '/');
    assert t[|first|] == '/';
    DropEmptyTail(parts, trail);
  }

  /**
   * The path of a destination: lead slashes, a first segment, the id, the
   * token and trail slashes.
   */
  function RelayPath(lead: nat, first: string, id: string, token: string, trail: nat): string {
    Repeat('/', lead) + (first + "/" + id + "/" + token + Repeat('/', trail))
  }

  /** Three segments the parser accepts: a non-empty first one and token, and no '/' in any. */
  predicate Segments(first: string, id: string, token: string) {
    first != [] && '/' !in first && '/' !in id && '/' !in token && token != []
  }

  lemma JoinThree(a: string, b: string, c: string, sep: char)
    ensures Join([a, b, c], sep) == a + [sep] + b + [sep] + c
  {
    assert [a, b, c][1..] == [b, c];
    assert [b, c][1..] == [c];
    assert Join([b, c], sep) == b + [sep] + c;
  }

  /** Every path is its leading slashes followed by what trimming leaves. */
  lemma SlashesThenRest(path: string)
    ensures path == Repeat('/', |path| - |TrimLeadingSlashes(path)|) + TrimLeadingSlashes(path)
  {
    var lead := |path| - |TrimLeadingSlashes(path)|;
    AllSlashes(path[..lead]);
    assert path == path[..lead] + path[lead..];
  }

  /** A string of slashes only is a repetition of '/'. */
  lemma {:induction false} AllSlashes(s: string)
    requires forall k :: 0 <= k < |s| ==> s[k] == '/'
    ensures s == Repeat('/', |s|)
    decreases |s|
  {
    if s != [] {
      AllSlashes(s[1..]);
      assert s == [s[0]] + s[1..];
    }
  }

  /** A text that splits into three segments is those segments, joined, followed by slashes. */
  lemma SplitIntoThree(t: string)
    requires '/' in t && |JavaSplit(t, '/')| == 3
    ensures var args := JavaSplit(t, '/');
      t == args[0] + "/" + args[1] + "/" + args[2] + Repeat('/', |SplitAll(t, '/')| - 3)
  {
    var all := SplitAll(t, '/');
    var args := DropTrailingEmpty(all);
    assert args == JavaSplit(t, '/');
    var trail := |all| - 3;
    KeptThenEmpty(all);
    assert all == args + EmptyStrings(trail);
    JoinSplitAll(t, '/');
    JoinEmptyTail(args, trail, '/');
    assert t == Join(args, '/') + Repeat('/', trail);
    assert args == [args[0], args[1], args[2]];
    JoinThree(args[0], args[1], args[2], '/');
  }

  /** A list is what DropTrailingEmpty keeps followed by the empty strings it drops. */
  lemma KeptThenEmpty(parts: seq<string>)
    ensures var kept := DropTrailingEmpty(parts);
      parts == kept + EmptyStrings(|parts| - |kept|)
  {
    var kept := DropTrailingEmpty(parts);
    var tail := EmptyStrings(|parts| - |kept|);
    assert parts[|kept|..] == tail;
    assert parts == parts[..|kept|] + parts[|kept|..];
  }

  /**
   * Every path "/relay/<id>/<token>", with any number of slashes before it
   * or after it, names exactly that destination, for every id (even an
   * empty one) and every non-empty token that hold no '/'.
   */
  lemma ParsePathOfDestination(lead: nat, first: string, id: string, token: string, trail: nat)
    requires Segments(first, id, token)
    ensures ParsePath(RelayPath(lead, first, id, token, trail)) == Some(Destination(id, token))
  {
    var t := first + "/" + id + "/" + token + Repeat('/', trail);
    assert t[0] == first[0];
    TrimAfterSlashes(lead, t);
    SplitThree(first, id, token, trail);
  }

  lemma DropEmptyTail(parts: seq<string>, n: nat)
    requires parts != [] && parts[|parts| - 1] != []
    ensures DropTrailingEmpty(parts + EmptyStrings(n)) == parts
  {
    var all := parts + EmptyStrings(n);
    var r := DropTrailingEmpty(all);
    assert r == all[..|parts|] == parts;
  }

  /** What an accepted path yields: a token that is not empty, and no '/' in either part. */
  lemma ParsedDestinationShape(path: string)
    requires ParsePath(path).Some?
    ensures '/' !in ParsePath(path).value.id && '/' !in ParsePath(path).value.token
    ensures ParsePath(path).value.token != []
  {
    var s := TrimLeadingSlashes(path);
    var args := JavaSplit(s, '/');
    assert '/' in s by {
      if '/' !in s { assert false; }
    }
  }

  /** An accepted path has the shape of a destination's path, with the parsed id and token. */
  lemma AcceptedPathShape(path: string)
    requires ParsePath(path).Some?
    ensures var d := ParsePath(path).value;
      exists lead: nat, first: string, trail: nat ::
        Segments(first, d.id, d.token) && path == RelayPath(lead, first, d.id, d.token, trail)
  {
    var t := TrimLeadingSlashes(path);
    var args := JavaSplit(t, '/');
    assert '/' in t by {
      if '/' !in t { assert false; }
    }
    ParsedDestinationShape(path);
    SlashesThenRest(path);
    SplitIntoThree(t);
    var trail := |SplitAll(t, '/')| - 3;
    assert t == args[0] + "/" + args[1] + "/" + args[2] + Repeat('/', trail);
    assert '/' !in args[0] by {
      assert args[0] == SplitAll(t, '/')[0];
    }
    assert t[0] != '/';
    assert args[0] != [];
    assert path == RelayPath(|path| - |t|, args[0], args[1], args[2], trail);
  }

  /**
   * The parser accepts exactly the paths of destinations: a path names d if
   * and only if it is lead slashes, a first segment, d's id and token and
   * trail slashes.
   */
  lemma ParsePathExactly(path: string, d: Destination)
    ensures ParsePath(path) == Some(d) <==>
      exists lead: nat, first: string, trail: nat ::
        Segments(first, d.id, d.token) && path == RelayPath(lead, first, d.id, d.token, trail)
  {
    if exists lead: nat, first: string, trail: nat ::
        Segments(first, d.id, d.token) && path == RelayPath(lead, first, d.id, d.token, trail)
    {
      var lead: nat, first: string, trail: nat :|
        Segments(first, d.id, d.token) && path == RelayPath(lead, first, d.id, d.token, trail);
      ParsePathOfDestination(lead, first, d.id, d.token, trail);
    }
    if ParsePath(path) == Some(d) {
      AcceptedPathShape(path);
    }
  }
}
