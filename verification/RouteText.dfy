/** The ROUTE message as text: path_to_string and get_route_message in routing.c, and its parser in ring.c. */
module RouteText {
  import opened Nodes
  import opened Wrappers
  import opened RoutingSpec

  const MAX_NODES := 16
  const MAX_PATH_STR_LENGTH := 47
  const MAX_NODE_ID := 99

  predicate IsId(id: NodeId) {
    0 <= id <= MAX_NODE_ID
  }

  function Digit(d: int): char
    requires 0 <= d <= 9
  {
    '0' + d as char
  }

  predicate IsDigit(c: char) {
    '0' <= c <= '9'
  }

  // An ID in the format "%02hhd".
  function PrintId(id: NodeId): (s: string)
    requires IsId(id)
    ensures |s| == 2 && IsToken(s) && Atoi(s) == id
  {
    AtoiOfTwo(Digit(id / 10), Digit(id % 10));
    [Digit(id / 10), Digit(id % 10)]
  }

  function Atoi(s: string): nat
    requires forall k :: 0 <= k < |s| ==> IsDigit(s[k])
  {
    assert s != [] ==> IsDigit(s[|s| - 1]);
    if s == [] then 0 else Atoi(s[..|s| - 1]) * 10 + (s[|s| - 1] as int - '0' as int)
  }

  lemma AtoiOfTwo(a: char, b: char)
    requires IsDigit(a) && IsDigit(b)
    ensures Atoi([a, b]) == 10 * (a as int - '0' as int) + (b as int - '0' as int)
  {
    assert [a, b][..1] == [a] && [a][..0] == [];
    assert Atoi([]) == 0 && Atoi([a]) == a as int - '0' as int;
  }

  // What stands between two dashes.
  predicate IsToken(s: string) {
    |s| <= 2 && forall k :: 0 <= k < |s| ==> IsDigit(s[k])
  }

  ghost predicate AreIds(ids: seq<NodeId>) {
    forall id :: id in ids ==> IsId(id)
  }

  // Every ID followed by a dash.
  ghost function Dashed(ids: seq<NodeId>): (s: string)
    requires AreIds(ids)
    ensures |s| == 3 * |ids|
  {
    if ids == [] then [] else Dashed(ids[..|ids| - 1]) + PrintId(ids[|ids| - 1]) + "-"
  }

  // The IDs with dashes between them.
  ghost function PathText(ids: seq<NodeId>): string
    requires ids != [] && AreIds(ids)
  {
    Dashed(ids[..|ids| - 1]) + PrintId(ids[|ids| - 1])
  }

  // path_to_string, at node `self`; nothing is written for a path that does not exist.
  method PathToString(self: NodeId, recipient: NodeId, path: Option<Path>) returns (s: string)
    requires IsId(self) && IsId(recipient) && (path.Some? ==> AreIds(path.value))
    ensures path.None? ==> s == ""
    ensures path.Some? ==> s == PathText([self] + path.value + [recipient]) && |s| == 3 * (|path.value| + 2) - 1
  {
    if path.None? {
      return "";
    }
    var nodes := path.value;
    ghost var ids := [self] + nodes;
    s := PrintId(self) + "-";
    assert ids[..1] == [self] && [self][..0] == [];
    for i := 0 to |nodes|
      invariant s == Dashed(ids[..i + 1])
    {
      assert ids[..i + 2][..i + 1] == ids[..i + 1];
      s := s + PrintId(nodes[i]) + "-";
    }
    assert ids[..|nodes| + 1] == ids && (ids + [recipient])[..|ids|] == ids;
    s := s + PrintId(recipient);
  }

  // What stands before, between and after the dashes of `token + s`, where `token` has none.
  function SplitFrom(token: string, s: string): seq<string>
    decreases |s|
  {
    if s == [] then [token]
    else if s[0] == '-' then [token] + SplitFrom([], s[1..])
    else SplitFrom(token + [s[0]], s[1..])
  }

  function Split(s: string): seq<string> {
    SplitFrom([], s)
  }

  ghost predicate AreTokens(tokens: seq<string>) {
    forall k :: 0 <= k < |tokens| ==> IsToken(tokens[k])
  }

  ghost predicate Parsed(tokens: seq<string>, ids: seq<NodeId>) {
    && |ids| == |tokens| && AreTokens(tokens)
    && forall i :: 0 <= i < |tokens| ==> ids[i] == Atoi(tokens[i])
  }

  function Prepend(ids: seq<NodeId>, rest: Option<seq<NodeId>>): Option<seq<NodeId>> {
    if rest.None? then None else Some(ids + rest.value)
  }

  lemma PrependTwice(a: seq<NodeId>, b: seq<NodeId>, rest: Option<seq<NodeId>>)
    ensures Prepend(a, Prepend(b, rest)) == Prepend(a + b, rest)
    ensures Prepend([], rest) == rest
  {
    assert rest.Some? ==> a + (b + rest.value) == (a + b) + rest.value && [] + rest.value == rest.value;
  }

  // The IDs in `token + s`, unless something between two dashes is not a token.
  function ParseFrom(token: string, s: string): Option<seq<NodeId>>
    decreases |s|
  {
    if !IsToken(token) then None
    else if s == [] then Some([Atoi(token)])
    else if s[0] == '-' then Prepend([Atoi(token)], ParseFrom([], s[1..]))
    else ParseFrom(token + [s[0]], s[1..])
  }

  lemma {:induction false} FirstSplit(token: string, s: string)
    ensures SplitFrom(token, s) != [] && token <= SplitFrom(token, s)[0]
    decreases |s|
  {
    if s != [] && s[0] != '-' {
      FirstSplit(token + [s[0]], s[1..]);
    }
  }

  // It accepts exactly the strings of at most two digits between dashes, and yields their values.
  lemma {:induction false} ParseReadsTokens(token: string, s: string)
    ensures ParseFrom(token, s).Some? <==> AreTokens(SplitFrom(token, s))
    ensures ParseFrom(token, s).Some? ==> Parsed(SplitFrom(token, s), ParseFrom(token, s).value)
    decreases |s|
  {
    if !IsToken(token) {
      FirstSplit(token, s);
      NotATokenPrefix(token, SplitFrom(token, s)[0]);
    } else if s != [] && s[0] == '-' {
      ParseReadsTokens([], s[1..]);
      TokensPrepend(token, SplitFrom([], s[1..]), ParseFrom([], s[1..]));
    } else if s != [] {
      ParseReadsTokens(token + [s[0]], s[1..]);
    }
  }

  lemma NotATokenPrefix(token: string, longer: string)
    requires !IsToken(token) && token <= longer
    ensures !IsToken(longer)
  {
  }

  lemma MoreTokens(token: string, tokens: seq<string>)
    ensures AreTokens([token] + tokens) <==> IsToken(token) && AreTokens(tokens)
  {
    var all := [token] + tokens;
    assert all[0] == token && all[1..] == tokens;
    forall k | 0 <= k < |tokens| ensures IsToken(tokens[k]) == IsToken(all[k + 1]) {
      assert all[1..][k] == all[k + 1];
    }
  }

  lemma TokensPrepend(token: string, tokens: seq<string>, ids: Option<seq<NodeId>>)
    requires IsToken(token) && (ids.Some? <==> AreTokens(tokens)) && (ids.Some? ==> Parsed(tokens, ids.value))
    ensures Prepend([Atoi(token)], ids).Some? <==> AreTokens([token] + tokens)
    ensures ids.Some? ==> Parsed([token] + tokens, [Atoi(token)] + ids.value)
  {
    MoreTokens(token, tokens);
  }

  // `Overrun` is where the program writes behind the end of its array of IDs.
  datatype Parse = Ids(ids: seq<NodeId>) | Invalid | Overrun

  // How many IDs of `token + s` are stored before the string ends or is found invalid, were the array large enough.
  function Stored(token: string, s: string): nat
    decreases |s|
  {
    if !IsToken(token) then 0
    else if s == [] then 1
    else if s[0] == '-' then 1 + Stored([], s[1..])
    else Stored(token + [s[0]], s[1..])
  }

  // The loop over the path string of a ROUTE message.
  method ParsePath(s: string) returns (r: Parse)
    ensures r.Overrun? <==> Stored([], s) > MAX_NODES
    ensures !r.Overrun? ==> r == match ParseFrom([], s) case None => Invalid case Some(ids) => Ids(ids)
  {
    var nodes := new NodeId[MAX_NODES](_ => 0);
    var i, idStart, c := 0, 0, 0;
    ghost var all := ParseFrom([], s);
    PrependTwice([], [], all);
    assert s[0..] == s && nodes[..0] == [];
    while true
      invariant 0 <= i <= MAX_NODES && 0 <= idStart <= c <= |s| && IsToken(s[idStart..c])
      invariant all == Prepend(nodes[..i], ParseFrom(s[idStart..c], s[c..]))
      invariant Stored([], s) == i + Stored(s[idStart..c], s[c..])
      decreases |s| - c
    {
      var token := s[idStart..c];
      if c == |s| || s[c] == '-' {
        if i == nodes.Length {
          return Overrun;
        }
        ghost var before := nodes[..i];
        nodes[i] := Atoi(token);
        i := i + 1;
        assert nodes[..i] == before + [Atoi(token)];
        if c == |s| {
          return Ids(nodes[..i]);
        }
        assert s[c..][1..] == s[c + 1..];
        PrependTwice(before, [Atoi(token)], ParseFrom([], s[c + 1..]));
        idStart := c + 1;
      } else {
        assert s[c..][1..] == s[c + 1..] && token + [s[c]] == s[idStart..c + 1];
        if !IsDigit(s[c]) || c > idStart + 1 {
          assert !IsToken(s[idStart..c + 1]) by {
            assert s[idStart..c + 1][c - idStart] == s[c];
          }
          return Invalid;
        }
      }
      c := c + 1;
    }
  }

  lemma {:induction false} StoredAreTokens(token: string, s: string, k: nat)
    ensures Stored(token, s) > k <==>
            |SplitFrom(token, s)| > k && forall j :: 0 <= j <= k ==> IsToken(SplitFrom(token, s)[j])
    decreases |s|
  {
    FirstSplit(token, s);
    var tokens := SplitFrom(token, s);
    if !IsToken(token) {
      NotATokenPrefix(token, tokens[0]);
    } else if s != [] && s[0] != '-' {
      StoredAreTokens(token + [s[0]], s[1..], k);
    } else if s != [] {
      var rest := SplitFrom([], s[1..]);
      assert tokens == [token] + rest;
      if k > 0 {
        StoredAreTokens([], s[1..], k - 1);
        assert forall j :: 0 <= j < |rest| ==> rest[j] == tokens[j + 1];
        assert forall j :: 0 < j < |tokens| ==> tokens[j] == rest[j - 1];
      }
    }
  }

  // The array is overrun exactly when the string starts with more IDs than the array has cells.
  lemma OverrunExactlyWhen(s: string)
    ensures Stored([], s) > MAX_NODES <==>
            |Split(s)| > MAX_NODES && forall j :: 0 <= j <= MAX_NODES ==> IsToken(Split(s)[j])
  {
    StoredAreTokens([], s, MAX_NODES);
  }

  lemma {:induction false} SplitCount(token: string, s: string)
    ensures |SplitFrom(token, s)| == multiset(s)['-'] + 1
    decreases |s|
  {
    if s != [] {
      assert s == [s[0]] + s[1..];
      SplitCount([], s[1..]);
      SplitCount(token + [s[0]], s[1..]);
    }
  }

  // A path string that is accepted otherwise fits exactly when it has fewer dashes than the array has cells: this is
  // what the check that is switched off would have to guarantee.
  lemma FitsExactlyWhen(s: string)
    requires ParseFrom([], s).Some?
    ensures Stored([], s) <= MAX_NODES <==> multiset(s)['-'] < MAX_NODES
    ensures |ParseFrom([], s).value| == multiset(s)['-'] + 1
  {
    OverrunExactlyWhen(s);
    ParseReadsTokens([], s);
    SplitCount([], s);
  }

  // `n` + 1 zeros with dashes between them.
  function Zeros(n: nat): string {
    if n == 0 then "0" else "0-" + Zeros(n - 1)
  }

  lemma {:induction false} ZerosAreIds(n: nat)
    ensures |Zeros(n)| == 2 * n + 1
    ensures ParseFrom([], Zeros(n)) == Some(seq(n + 1, _ => 0)) && Stored([], Zeros(n)) == n + 1
  {
    var s := Zeros(n);
    assert [] + ['0'] == "0" && Atoi("0") == 0 by {
      assert "0"[..0] == [] && Atoi([]) == 0;
    }
    assert ParseFrom([], s) == ParseFrom("0", s[1..]) && Stored([], s) == Stored("0", s[1..]);
    if n == 0 {
      assert s[1..] == [] && seq(1, _ => 0) == [0];
    } else {
      ZerosAreIds(n - 1);
      assert s[1..] == "-" + Zeros(n - 1) && s[1..][1..] == Zeros(n - 1);
      assert [0] + seq(n, _ => 0) == seq(n + 1, _ => 0);
    }
  }

  // The buffer for the path string has room for one that overruns the array: seventeen zeros in 33 characters.
  lemma LongPathOverruns()
    ensures |Zeros(16)| == 33 <= MAX_PATH_STR_LENGTH
    ensures ParseFrom([], Zeros(16)).Some? && Stored([], Zeros(16)) > MAX_NODES
  {
    ZerosAreIds(16);
  }

  lemma {:induction false} DashedFromFront(ids: seq<NodeId>)
    requires ids != [] && AreIds(ids)
    ensures Dashed(ids) == PrintId(ids[0]) + "-" + Dashed(ids[1..])
  {
    if |ids| == 1 {
      assert ids[..0] == [] && ids[1..] == [];
    } else {
      var front := ids[..|ids| - 1];
      DashedFromFront(front);
      assert ids[1..][..|ids| - 2] == front[1..];
    }
  }

  lemma PathTextFromFront(ids: seq<NodeId>)
    requires |ids| > 1 && AreIds(ids)
    ensures PathText(ids) == PrintId(ids[0]) + "-" + PathText(ids[1..])
  {
    var front := ids[..|ids| - 1];
    DashedFromFront(front);
    assert ids[1..][..|ids| - 2] == front[1..];
  }

  lemma SplitFirstId(id: NodeId, rest: string)
    requires IsId(id)
    ensures Split(PrintId(id)) == [PrintId(id)]
    ensures Split(PrintId(id) + "-" + rest) == [PrintId(id)] + Split(rest)
  {
    var p := PrintId(id);
    var text := p + "-" + rest;
    assert text[1..] == [p[1]] + "-" + rest && text[1..][1..] == "-" + rest && text[1..][1..][1..] == rest;
    assert [] + [p[0]] == [p[0]] && [p[0]] + [p[1]] == p;
    assert SplitFrom(p, "-" + rest) == [p] + SplitFrom([], rest);
    assert SplitFrom([p[0]], text[1..]) == SplitFrom(p, "-" + rest);
    assert p[1..] == [p[1]] && p[1..][1..] == [];
    assert SplitFrom([p[0]], [p[1]]) == SplitFrom(p, []);
  }

  // The tokens of a printed path are its IDs.
  lemma {:induction false} SplitPathText(ids: seq<NodeId>)
    requires ids != [] && AreIds(ids)
    ensures |Split(PathText(ids))| == |ids|
    ensures forall k :: 0 <= k < |ids| ==> Split(PathText(ids))[k] == PrintId(ids[k])
  {
    if |ids| == 1 {
      assert PathText(ids) == PrintId(ids[0]);
      SplitFirstId(ids[0], "");
    } else {
      PathTextFromFront(ids);
      SplitPathText(ids[1..]);
      SplitFirstId(ids[0], PathText(ids[1..]));
    }
  }

  // A path text is read back as the path.
  lemma ParsePathText(ids: seq<NodeId>)
    requires ids != [] && AreIds(ids)
    ensures ParseFrom([], PathText(ids)) == Some(ids)
  {
    SplitPathText(ids);
    ParseReadsTokens([], PathText(ids));
    assert ParseFrom([], PathText(ids)).value == ids;
  }

  ghost predicate Writable(u: NodeId, a: Announcement) {
    IsId(u) && IsId(a.recipient) && (a.path.Some? ==> AreIds(a.path.value))
  }

  ghost predicate Printable(u: NodeId, a: Announcement) {
    && Writable(u, a)
    && (a.path.Some? ==> |a.path.value| < MAX_NODES && (a.path.value == [] <==> u == a.recipient))
  }

  // The message by which node `u` makes an announcement, without the newline.
  ghost function RouteLine(u: NodeId, a: Announcement): string
    requires Writable(u, a)
  {
    "ROUTE " + PrintId(u) + " " + PrintId(a.recipient)
    + if a.path.None? then "" else " " + PathText(a.path.value + [a.recipient])
  }

  // get_route_message for a recipient other than the node itself; the text and its terminator fit in the buffer exactly
  // when the path has at most fourteen hops.
  method GetRouteMessage(self: NodeId, recipient: NodeId, path: Option<Path>) returns (msg: string)
    requires IsId(self) && IsId(recipient) && self != recipient && (path.Some? ==> AreIds(path.value))
    ensures var a := Announcement(recipient, if path.None? then None else Some([self] + path.value));
            && Writable(self, a) && msg == RouteLine(self, a) + "\n"
            && (|msg| + 1 <= 14 + MAX_PATH_STR_LENGTH <==> path.None? || |path.value| <= MAX_NODES - 2)
            && (|msg| + 1 <= 14 + MAX_PATH_STR_LENGTH ==> Printable(self, a))
  {
    msg := "ROUTE " + PrintId(self) + " " + PrintId(recipient);
    if path.Some? {
      var text := PathToString(self, recipient, path);
      msg := msg + " " + text;
    }
    msg := msg + "\n";
  }

  lemma RouteLineFields(u: NodeId, a: Announcement)
    requires Printable(u, a)
    ensures var line := RouteLine(u, a);
            && |line| >= 11 && line[..6] == "ROUTE " && line[6..8] == PrintId(u) && line[8] == ' '
            && line[9..11] == PrintId(a.recipient)
            && (a.path.None? ==> |line| == 11)
            && (a.path.Some? ==> 14 <= |line| <= 12 + MAX_PATH_STR_LENGTH && line[11] == ' '
                                 && line[12..] == PathText(a.path.value + [a.recipient]))
  {
  }

  // The two IDs at the head of a ROUTE message.
  function Head(line: string): (ids: Option<(NodeId, NodeId)>)
    ensures ids.Some? ==> |line| >= 11 && IsId(ids.value.0) && IsId(ids.value.1)
  {
    if |line| < 11 || line[..6] != "ROUTE " || line[8] != ' ' || !IsToken(line[6..8]) || !IsToken(line[9..11]) then None
    else
      assert line[6] in line[6..8] && line[7] in line[6..8] && line[9] in line[9..11] && line[10] in line[9..11];
      AtoiOfTwo(line[6], line[7]);
      AtoiOfTwo(line[9], line[10]);
      assert line[6..8] == [line[6], line[7]] && line[9..11] == [line[9], line[10]];
      Some((Atoi(line[6..8]), Atoi(line[9..11])))
  }

  lemma PrintedHead(u: NodeId, w: Announcement)
    requires Printable(u, w)
    ensures Head(RouteLine(u, w)) == Some((u, w.recipient))
  {
    RouteLineFields(u, w);
  }

  // The path string of a ROUTE message, of which no more than the buffer holds is read.
  function PathField(line: string): (f: string)
    requires |line| >= 12
    ensures |f| <= MAX_PATH_STR_LENGTH && f <= line[12..] && (|f| < MAX_PATH_STR_LENGTH ==> f == line[12..])
  {
    if |line| - 12 > MAX_PATH_STR_LENGTH then line[12..12 + MAX_PATH_STR_LENGTH] else line[12..]
  }

  lemma PrintedPathField(u: NodeId, w: Announcement)
    requires Printable(u, w) && w.path.Some?
    ensures var line := RouteLine(u, w);
            && |line| > 12 && ParseFrom([], PathField(line)) == Some(w.path.value + [w.recipient])
            && Stored([], PathField(line)) <= MAX_NODES
  {
    var line, ids := RouteLine(u, w), w.path.value + [w.recipient];
    RouteLineFields(u, w);
    ParsePathText(ids);
    SplitPathText(ids);
    assert PathField(line) == line[12..] == PathText(ids);
    OverrunExactlyWhen(PathText(ids));
  }

  datatype Received = Accepted(a: Announcement) | Ignored | ArrayOverrun

  predicate HasPathField(line: string) {
    |line| > 12 && line[11] == ' '
  }

  // What becomes of the path string of a message from `neighbor` about `recipient`.
  function ReadField(field: string, neighbor: NodeId, recipient: NodeId): (r: Received)
    ensures r.ArrayOverrun? <==> Stored([], field) > MAX_NODES
    ensures r.Accepted? ==>
              && r.a.recipient == recipient && r.a.path.Some? && |r.a.path.value| < MAX_NODES
              && (r.a.path.value == [] <==> neighbor == recipient)
  {
    if Stored([], field) > MAX_NODES then ArrayOverrun
    else
      match ParseFrom([], field)
      case None => Ignored
      case Some(ids) =>
        FitsExactlyWhen(field);
        if (neighbor == recipient) != (|ids| == 1) then Ignored
        else Accepted(Announcement(recipient, Some(ids[..|ids| - 1])))
  }

  lemma TokenIsId(t: string)
    requires IsToken(t)
    ensures IsId(Atoi(t))
  {
    if |t| == 2 {
      AtoiOfTwo(t[0], t[1]);
      assert t == [t[0], t[1]];
    } else if |t| == 1 {
      assert t[..0] == [];
    }
  }

  lemma AcceptedAreIds(field: string, neighbor: NodeId, recipient: NodeId)
    requires ReadField(field, neighbor, recipient).Accepted?
    ensures AreIds(ReadField(field, neighbor, recipient).a.path.value)
    ensures |ReadField(field, neighbor, recipient).a.path.value| == multiset(field)['-']
  {
    ParseReadsTokens([], field);
    FitsExactlyWhen(field);
    var ids := ParseFrom([], field).value;
    forall k | 0 <= k < |ids| ensures IsId(ids[k]) {
      TokenIsId(Split(field)[k]);
    }
  }

  // What a node announces after it has taken over the path of a message fits in its own buffer exactly when the path
  // has at most fourteen dashes: one less than what the array has room for.
  lemma PassedOnFitsExactlyWhen(self: NodeId, field: string, neighbor: NodeId, recipient: NodeId)
    requires ReadField(field, neighbor, recipient).Accepted? && IsId(self) && IsId(recipient)
    ensures var a := Announcement(recipient, Some([self] + ReadField(field, neighbor, recipient).a.path.value));
            && Writable(self, a)
            && (|RouteLine(self, a) + "\n"| + 1 <= 14 + MAX_PATH_STR_LENGTH <==> multiset(field)['-'] <= MAX_NODES - 2)
  {
    AcceptedAreIds(field, neighbor, recipient);
  }

  // Sixteen zeros are accepted, and too long to be passed on.
  lemma LongPathIsAccepted(self: NodeId, neighbor: NodeId, recipient: NodeId)
    requires IsId(self) && IsId(recipient) && neighbor != recipient
    ensures |Zeros(15)| <= MAX_PATH_STR_LENGTH && ReadField(Zeros(15), neighbor, recipient).Accepted?
    ensures var a := Announcement(recipient, Some([self] + ReadField(Zeros(15), neighbor, recipient).a.path.value));
            Writable(self, a) && |RouteLine(self, a) + "\n"| + 1 == 64 > 14 + MAX_PATH_STR_LENGTH
  {
    ZerosAreIds(15);
    AcceptedAreIds(Zeros(15), neighbor, recipient);
  }

  lemma ReadPrintedField(u: NodeId, w: Announcement)
    requires Printable(u, w) && w.path.Some?
    ensures var line := RouteLine(u, w);
            HasPathField(line) && ReadField(PathField(line), u, w.recipient) == Accepted(w)
  {
    RouteLineFields(u, w);
    PrintedPathField(u, w);
    assert (w.path.value + [w.recipient])[..|w.path.value|] == w.path.value;
  }

  method ReadPath(field: string, neighbor: NodeId, recipient: NodeId) returns (r: Received)
    ensures r == ReadField(field, neighbor, recipient)
  {
    var parse := ParsePath(field);
    match parse {
      case Overrun => return ArrayOverrun;
      case Invalid => return Ignored;
      case Ids(ids) =>
        FitsExactlyWhen(field);
        if (neighbor == recipient) != (|ids| == 1) {
          return Ignored;
        }
        return Accepted(Announcement(recipient, Some(ids[..|ids| - 1])));
    }
  }

  // The ROUTE branches of handle_message_from_any_node at node `self`, for a connection to node `neighbor`, as far as
  // the printed format goes.
  method ReadRoute(line: string, neighbor: NodeId, self: NodeId) returns (r: Received)
    ensures r.Accepted? ==> neighbor != self && IsId(neighbor) && IsId(r.a.recipient)
    ensures r.Accepted? && r.a.path.Some? ==>
              (r.a.path.value == [] <==> neighbor == r.a.recipient) && |r.a.path.value| < MAX_NODES
    ensures r.Accepted? && r.a.path.None? ==> r.a.recipient != self
    ensures r.ArrayOverrun? <==>
            && Head(line).Some? && Head(line).value.0 == neighbor != self
            && HasPathField(line) && Stored([], PathField(line)) > MAX_NODES
    ensures forall w :: Printable(neighbor, w) && line == RouteLine(neighbor, w) ==>
              r == if neighbor == self || (w.path.None? && w.recipient == self) then Ignored else Accepted(w)
    // A message in the name of another node is ignored.
    ensures forall u, w :: Printable(u, w) && line == RouteLine(u, w) && u != neighbor ==> r == Ignored
  {
    forall w | Printable(neighbor, w) && line == RouteLine(neighbor, w)
      ensures Head(line) == Some((neighbor, w.recipient)) && (w.path.None? ==> |line| == 11)
      ensures w.path.Some? ==> HasPathField(line) && ReadField(PathField(line), neighbor, w.recipient) == Accepted(w)
    {
      RouteLineFields(neighbor, w);
      PrintedHead(neighbor, w);
      if w.path.Some? {
        ReadPrintedField(neighbor, w);
      }
    }
    forall u, w | Printable(u, w) && line == RouteLine(u, w) ensures Head(line) == Some((u, w.recipient)) {
      PrintedHead(u, w);
    }
    var head := Head(line);
    if head.None? || head.value.0 != neighbor || neighbor == self {
      return Ignored;
    }
    var recipient := head.value.1;
    if |line| == 11 || (|line| == 12 && line[11] == ' ') {
      return if recipient == self then Ignored else Accepted(Announcement(recipient, None));
    }
    if !HasPathField(line) {
      return Ignored;
    }
    r := ReadPath(PathField(line), neighbor, recipient);
  }
}
