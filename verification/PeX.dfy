/**
 * Peer exchange: one node lists the addresses it knows of its peers, one line each, and another
 * reads the lines back. Encodings of IDs and addresses are parameters.
 */
module PeX {
  import opened Common
  import opened Strings

  datatype Codec = Codec(
    showId: nat -> string, readId: string -> Option<nat>,
    showAddr: nat -> string, readAddr: string -> Option<nat>)

  datatype Info = Info(id: nat, addr: nat)

  function Body(c: Codec, info: Info): string {
    c.showId(info.id) + ['|'] + c.showAddr(info.addr)
  }

  function Text(c: Codec, infos: seq<Info>): string {
    if infos == [] then "" else Text(c, infos[..|infos| - 1]) + Body(c, infos[|infos| - 1]) + ['\n']
  }

  function Of(id: nat, addrs: seq<nat>): seq<Info> {
    seq(|addrs|, i requires 0 <= i < |addrs| => Info(id, addrs[i]))
  }

  /** What the responder knows, but for the requester itself, in order. */
  function Known(peers: seq<nat>, book: nat -> seq<nat>, requester: nat): seq<Info> {
    if peers == [] then []
    else
      var p := peers[|peers| - 1];
      var front := Known(peers[..|peers| - 1], book, requester);
      if p != requester then front + Of(p, book(p)) else front
  }

  // The responder

  datatype Serving = Reset | Closed | LeftOpen

  /** How a write ends: in full, or with an error after some of its bytes. */
  datatype WriteEnd = Whole | Short(k: nat)

  /** Writes one line for every address of one peer, until a write fails. */
  method WriteAddrs(c: Codec, id: nat, addrs: seq<nat>, writes: nat -> WriteEnd, count: nat)
    returns (text: string, whole: bool)
    ensures text <= Text(c, Of(id, addrs))
    ensures whole ==> text == Text(c, Of(id, addrs))
    ensures whole <==> forall j :: count <= j < count + |addrs| ==> writes(j).Whole?
  {
    text := "";
    for j := 0 to |addrs|
      invariant text == Text(c, Of(id, addrs[..j]))
      invariant forall k :: count <= k < count + j ==> writes(k).Whole?
    {
      var line := Body(c, Info(id, addrs[j])) + ['\n'];
      var k := if writes(count + j).Short? then Min(writes(count + j).k, |line|) else |line|;
      LineOf(c, id, addrs, j, k);
      if writes(count + j).Short? {
        return text + line[..k], false;
      }
      text := text + line;
    }
    assert addrs[..|addrs|] == addrs;
    whole := true;
  }

  /** The line of the next address, of which `k` characters are written. */
  lemma LineOf(c: Codec, id: nat, addrs: seq<nat>, j: nat, k: nat)
    requires j < |addrs| && k <= |Body(c, Info(id, addrs[j])) + ['\n']|
    ensures Text(c, Of(id, addrs[..j + 1])) == Text(c, Of(id, addrs[..j])) + (Body(c, Info(id, addrs[j])) + ['\n'])
    ensures Text(c, Of(id, addrs[..j])) + (Body(c, Info(id, addrs[j])) + ['\n'])[..k] <= Text(c, Of(id, addrs))
  {
    var info := Info(id, addrs[j]);
    assert Of(id, addrs[..j + 1]) == Of(id, addrs[..j]) + [info] == Of(id, addrs)[..j + 1];
    TextGrows(c, Of(id, addrs[..j]), info, Of(id, addrs), k);
  }

  method Serve(c: Codec, peers: seq<nat>, book: nat -> seq<nat>, requester: nat,
               request: Option<string>, writes: nat -> WriteEnd)
    returns (out: string, end: Serving)
    ensures out <= Text(c, Known(peers, book, requester))
    ensures end.Closed? ==> out == Text(c, Known(peers, book, requester))
    ensures end.Closed? <==>
              && requester in peers && request == Some("r")
              && forall i :: 0 <= i < |Known(peers, book, requester)| ==> writes(i).Whole?
    ensures end.LeftOpen? <==> requester in peers && request.Some? && request != Some("r")
    ensures !(requester in peers && request == Some("r")) ==> out == ""
  {
    out := "";
    var found := false;
    for i := 0 to |peers|
      invariant !found && requester !in peers[..i]
    {
      assert peers[..i + 1] == peers[..i] + [peers[i]];
      if peers[i] == requester {
        found := true;
        break;
      }
    }
    assert peers[..|peers|] == peers;
    if !found || request.None? {
      return out, Reset;
    }
    if request.value != "r" {
      return out, LeftOpen;
    }
    out, end := Answer(c, peers, book, requester, writes);
  }

  /** The lines of all peers but the requester. */
  method Answer(c: Codec, peers: seq<nat>, book: nat -> seq<nat>, requester: nat, writes: nat -> WriteEnd)
    returns (out: string, end: Serving)
    ensures out <= Text(c, Known(peers, book, requester))
    ensures end.Closed? ==> out == Text(c, Known(peers, book, requester))
    ensures end.Closed? || end.Reset?
    ensures end.Closed? <==> forall i :: 0 <= i < |Known(peers, book, requester)| ==> writes(i).Whole?
  {
    out := "";
    var count := 0;
    for i := 0 to |peers|
      invariant out == Text(c, Known(peers[..i], book, requester))
      invariant count == |Known(peers[..i], book, requester)|
      invariant forall j :: 0 <= j < count ==> writes(j).Whole?
    {
      KnownNext(c, peers, i, book, requester);
      if peers[i] != requester {
        var addrs := book(peers[i]);
        var text, whole := WriteAddrs(c, peers[i], addrs, writes, count);
        out := out + text;
        if !whole {
          return out, Reset;
        }
        count := count + |addrs|;
      }
    }
    assert peers[..|peers|] == peers;
    return out, Closed;
  }

  /** What one more peer adds to the text, which stays within the text of all of them. */
  lemma KnownNext(c: Codec, peers: seq<nat>, i: nat, book: nat -> seq<nat>, requester: nat)
    requires i < |peers|
    ensures var now, next := Known(peers[..i], book, requester), Known(peers[..i + 1], book, requester);
            var all := Known(peers, book, requester);
            && next == (if peers[i] != requester then now + Of(peers[i], book(peers[i])) else now)
            && |now| <= |next| <= |all| && Text(c, next) <= Text(c, all)
            && (peers[i] != requester ==> Text(c, next) == Text(c, now) + Text(c, Of(peers[i], book(peers[i]))))
  {
    assert peers[..i + 1][..i] == peers[..i];
    var now, next := Known(peers[..i], book, requester), Known(peers[..i + 1], book, requester);
    var all := Known(peers, book, requester);
    KnownPrefix(peers, i + 1, book, requester);
    assert next == all[..|next|];
    TextPrefix(c, all, |next|);
    TextConcat(c, now, Of(peers[i], book(peers[i])));
  }

  lemma {:induction false} TextConcat(c: Codec, xs: seq<Info>, ys: seq<Info>)
    ensures Text(c, xs + ys) == Text(c, xs) + Text(c, ys)
  {
    if ys == [] {
      assert xs + ys == xs;
    } else {
      var n := |ys| - 1;
      var front, line := xs + ys[..n], Body(c, ys[n]) + ['\n'];
      TextConcat(c, xs, ys[..n]);
      TextSnoc(c, front, ys[n]);
      assert xs + ys == front + [ys[n]];
      TextSnoc(c, ys[..n], ys[n]);
      assert ys == ys[..n] + [ys[n]];
      Associate(Text(c, xs), Text(c, ys[..n]), line);
    }
  }

  lemma {:induction false} KnownPrefix(peers: seq<nat>, i: nat, book: nat -> seq<nat>, requester: nat)
    requires i <= |peers|
    ensures Known(peers[..i], book, requester) <= Known(peers, book, requester)
    decreases |peers| - i
  {
    if i == |peers| {
      assert peers[..i] == peers;
    } else {
      assert peers[..i + 1][..i] == peers[..i];
      KnownPrefix(peers, i + 1, book, requester);
    }
  }

  lemma TextSnoc(c: Codec, infos: seq<Info>, info: Info)
    ensures Text(c, infos + [info]) == Text(c, infos) + (Body(c, info) + ['\n'])
  {
    assert (infos + [info])[..|infos|] == infos;
  }

  lemma {:induction false} TextPrefix(c: Codec, infos: seq<Info>, i: nat)
    requires i <= |infos|
    ensures Text(c, infos[..i]) <= Text(c, infos)
    decreases |infos| - i
  {
    if i == |infos| {
      assert infos[..i] == infos;
    } else {
      assert infos[..i + 1] == infos[..i] + [infos[i]];
      TextSnoc(c, infos[..i], infos[i]);
      TextPrefix(c, infos, i + 1);
    }
  }

  /** One more line, whole or in part, stays within the text. */
  lemma TextGrows(c: Codec, sent: seq<Info>, info: Info, all: seq<Info>, k: nat)
    requires sent + [info] <= all && k <= |Body(c, info) + ['\n']|
    ensures Text(c, sent + [info]) == Text(c, sent) + (Body(c, info) + ['\n'])
    ensures Text(c, sent) + (Body(c, info) + ['\n'])[..k] <= Text(c, all)
  {
    TextSnoc(c, sent, info);
    assert all[..|sent| + 1] == sent + [info];
    TextPrefix(c, all, |sent| + 1);
  }

  // The requester

  /** The infos read; an error; or an index out of range on a line without a bar. */
  datatype Parsed = Got(infos: seq<Info>) | Bad | Panics

  function ParseLine(c: Codec, line: string): Parsed {
    var splits := Split(line, '|');
    if |splits| < 2 then Panics
    else
      var id, addr := c.readId(splits[0]), c.readAddr(splits[1]);
      if id.None? || addr.None? then Bad else Got([Info(id.value, addr.value)])
  }

  function ParseLines(c: Codec, lines: seq<string>): Parsed {
    if lines == [] then Got([])
    else
      match ParseLines(c, lines[..|lines| - 1])
      case Got(infos) =>
        (match ParseLine(c, lines[|lines| - 1])
         case Got(more) => Got(infos + more)
         case failed => failed)
      case failed => failed
  }

  /** A conversation with one peer: no stream, or the text it sent and whether it ended properly. */
  datatype Response = NoStream | Sent(text: string, eof: bool)

  /** Lines end in a newline; text after the last newline is dropped at the end of the stream. */
  function Read(c: Codec, r: Response): Parsed {
    match r
    case NoStream => Bad
    case Sent(text, eof) =>
      var parts := Split(text, '\n');
      match ParseLines(c, parts[..|parts| - 1])
      case Got(infos) => if eof then Got(infos) else Bad
      case failed => failed
  }

  lemma {:induction false} ParseStops(c: Codec, lines: seq<string>, i: nat)
    requires i <= |lines| && !ParseLines(c, lines[..i]).Got?
    ensures ParseLines(c, lines) == ParseLines(c, lines[..i])
    decreases |lines| - i
  {
    if i == |lines| {
      assert lines[..i] == lines;
    } else {
      assert lines[..i + 1][..i] == lines[..i];
      ParseStops(c, lines, i + 1);
    }
  }

  /** The lines that a requester gets to see of a text. */
  function LinesOf(text: string): seq<string> {
    Split(text, '\n')[..|Split(text, '\n')| - 1]
  }

  /** Line `k` is the first that does not parse. */
  ghost predicate FirstBad(c: Codec, lines: seq<string>, k: nat) {
    k < |lines| && !ParseLine(c, lines[k]).Got? && forall j :: 0 <= j < k ==> ParseLine(c, lines[j]).Got?
  }

  lemma LinePanics(c: Codec, line: string)
    ensures ParseLine(c, line).Panics? <==> '|' !in line
  {
    SplitsOnce(line, '|');
  }

  /** The first line that does not parse decides how reading ends. */
  lemma {:induction false} FirstBadDecides(c: Codec, lines: seq<string>)
    ensures ParseLines(c, lines).Got? <==> forall k: nat :: !FirstBad(c, lines, k)
    ensures forall k: nat :: FirstBad(c, lines, k) ==> ParseLines(c, lines) == ParseLine(c, lines[k])
  {
    if lines != [] {
      var n := |lines| - 1;
      var front := lines[..n];
      FirstBadDecides(c, front);
      forall k: nat | k < n
        ensures FirstBad(c, front, k) <==> FirstBad(c, lines, k)
      {
        assert forall j :: 0 <= j <= k ==> front[j] == lines[j];
      }
      if ParseLines(c, front).Got? {
        AllGot(c, front);
        assert FirstBad(c, lines, n) <==> !ParseLine(c, lines[n]).Got?;
      }
    }
  }

  lemma {:induction false} AllGot(c: Codec, lines: seq<string>)
    requires ParseLines(c, lines).Got?
    ensures forall k :: 0 <= k < |lines| ==> ParseLine(c, lines[k]).Got?
  {
    if lines != [] {
      AllGot(c, lines[..|lines| - 1]);
    }
  }

  /** An answer ends the requester's process exactly when its first line that does not parse has no bar. */
  lemma ReadPanics(c: Codec, r: Response)
    ensures Read(c, r).Panics? <==>
              r.Sent? && exists k: nat :: FirstBad(c, LinesOf(r.text), k) && '|' !in LinesOf(r.text)[k]
  {
    if r.Sent? {
      var lines := LinesOf(r.text);
      FirstBadDecides(c, lines);
      forall k: nat | k < |lines|
        ensures ParseLine(c, lines[k]).Panics? <==> '|' !in lines[k]
      {
        LinePanics(c, lines[k]);
      }
    }
  }

  /** An answer that does not end properly gives nothing, whatever came before; nor does a peer out of reach. */
  lemma BrokenAnswer(c: Codec, text: string)
    ensures !Read(c, Sent(text, false)).Got? && Read(c, NoStream) == Bad
    ensures Read(c, Sent(text, false)).Panics? <==> Read(c, Sent(text, true)).Panics?
  {
  }

  /** A line is the printed ID, a bar, and the printed address. */
  lemma OneLine(c: Codec, id: nat, addr: nat)
    ensures Text(c, [Info(id, addr)]) == c.showId(id) + "|" + c.showAddr(addr) + "\n"
  {
    assert [Info(id, addr)][..0] == [];
    assert Text(c, []) == "";
    assert "" + Body(c, Info(id, addr)) + ['\n'] == c.showId(id) + "|" + c.showAddr(addr) + "\n";
  }

  /** One line without a bar is enough, whatever the encodings. */
  lemma PanicExample(c: Codec, eof: bool)
    ensures Read(c, Sent("x\n", eof)).Panics?
  {
    SplitNone("x", '\n');
    SplitSnoc("x", '\n', '\n');
    assert "x" + ['\n'] == "x\n";
    assert LinesOf("x\n") == ["x"];
    LinePanics(c, "x");
    assert FirstBad(c, ["x"], 0);
    ReadPanics(c, Sent("x\n", eof));
  }

  /** The loop over the peers returns in its first round, whatever the first peer does. */
  method RequestPeX(c: Codec, peers: seq<nat>, ask: nat -> Response) returns (out: Parsed)
    ensures out == if peers == [] then Got([]) else Read(c, ask(peers[0]))
  {
    var infos: seq<Info> := [];
    for n := 0 to |peers|
      invariant n == 0 && infos == []
    {
      var s := ask(peers[n]);
      if s.NoStream? {
        return Bad;
      }
      var parts := Split(s.text, '\n');
      var lines := parts[..|parts| - 1];
      for i := 0 to |lines|
        invariant ParseLines(c, lines[..i]) == Got(infos)
      {
        assert lines[..i + 1][..i] == lines[..i];
        var line := ParseLine(c, lines[i]);
        if !line.Got? {
          ParseStops(c, lines, i + 1);
          return line;
        }
        infos := infos + line.infos;
      }
      assert lines[..|lines|] == lines;
      return if s.eof then Got(infos) else Bad;
    }
    return Got(infos);
  }

  // The round trip

  /** The encodings of these infos can be read back, and hold neither bars nor newlines. */
  ghost predicate Encodable(c: Codec, infos: seq<Info>) {
    forall i :: 0 <= i < |infos| ==> EncodableInfo(c, infos[i])
  }

  ghost predicate EncodableInfo(c: Codec, info: Info) {
    var id, addr := c.showId(info.id), c.showAddr(info.addr);
    && '|' !in id && '\n' !in id && '|' !in addr && '\n' !in addr
    && c.readId(id) == Some(info.id) && c.readAddr(addr) == Some(info.addr)
  }

  lemma ReadsBack(c: Codec, info: Info)
    requires EncodableInfo(c, info)
    ensures ParseLine(c, Body(c, info)) == Got([info])
    ensures '\n' !in Body(c, info)
  {
    SplitNone(c.showId(info.id), '|');
    SplitOneMore(c.showId(info.id), c.showAddr(info.addr), '|');
    assert [c.showId(info.id)] + [c.showAddr(info.addr)] == [c.showId(info.id), c.showAddr(info.addr)];
  }

  function Bodies(c: Codec, infos: seq<Info>): seq<string> {
    seq(|infos|, i requires 0 <= i < |infos| => Body(c, infos[i]))
  }

  lemma LineAppended(front: string, parts: seq<string>, body: string)
    requires Split(front, '\n') == parts + [""] && '\n' !in body
    ensures Split(front + body + ['\n'], '\n') == parts + [body] + [""]
  {
    SplitFree(front, body, '\n');
    SplitSnoc(front + body, '\n', '\n');
    assert "" + body == body;
    assert Extend(parts + [""], body) == parts + [body];
  }

  lemma {:induction false} LinesOfText(c: Codec, infos: seq<Info>)
    requires Encodable(c, infos)
    ensures Split(Text(c, infos), '\n') == Bodies(c, infos) + [""]
  {
    if infos != [] {
      var n := |infos| - 1;
      LinesOfText(c, infos[..n]);
      ReadsBack(c, infos[n]);
      LineAppended(Text(c, infos[..n]), Bodies(c, infos[..n]), Body(c, infos[n]));
      assert Bodies(c, infos[..n]) + [Body(c, infos[n])] == Bodies(c, infos);
    } else {
      assert Bodies(c, []) + [""] == [""];
    }
  }

  lemma {:induction false} ParseBodies(c: Codec, infos: seq<Info>)
    requires Encodable(c, infos)
    ensures ParseLines(c, Bodies(c, infos)) == Got(infos)
  {
    if infos != [] {
      var n := |infos| - 1;
      ParseBodies(c, infos[..n]);
      ReadsBack(c, infos[n]);
      assert Bodies(c, infos)[..n] == Bodies(c, infos[..n]);
      assert infos[..n] + [infos[n]] == infos;
    }
  }

  /** Reading back what a responder wrote yields exactly what it knows, in order. */
  lemma RoundTrip(c: Codec, infos: seq<Info>)
    requires Encodable(c, infos)
    ensures Read(c, Sent(Text(c, infos), true)) == Got(infos)
  {
    LinesOfText(c, infos);
    ParseBodies(c, infos);
    assert (Bodies(c, infos) + [""])[..|infos|] == Bodies(c, infos);
  }

  /** The number of lines that end within the first `k` characters. */
  lemma {:induction false} WholeLines(c: Codec, infos: seq<Info>, k: nat) returns (n: nat)
    requires k <= |Text(c, infos)|
    ensures n <= |infos| && |Text(c, infos[..n])| <= k
    ensures n < |infos| ==> k < |Text(c, infos[..n + 1])|
  {
    assert infos[..|infos|] == infos;
    if k == |Text(c, infos)| {
      return |infos|;
    }
    var m := |infos| - 1;
    if |Text(c, infos[..m])| <= k {
      return m;
    }
    n := WholeLines(c, infos[..m], k);
    assert infos[..m][..n] == infos[..n] && infos[..m][..m] == infos[..m];
    if n < m {
      assert infos[..m][..n + 1] == infos[..n + 1];
    }
  }

  lemma CutLine(text: string, front: string, body: string, k: nat)
    requires front + (body + ['\n']) <= text && |front| <= k < |front| + |body| + 1 && '\n' !in body
    ensures text[..k] == front + body[..k - |front|] && '\n' !in body[..k - |front|]
  {
    assert text[..k] == (front + (body + ['\n']))[..k];
  }

  /** What follows the whole lines in a text that was cut is part of a line. */
  lemma RestOfCut(c: Codec, infos: seq<Info>, k: nat, n: nat) returns (rest: string)
    requires Encodable(c, infos) && k <= |Text(c, infos)| && n <= |infos| && |Text(c, infos[..n])| <= k
    requires n < |infos| ==> k < |Text(c, infos[..n + 1])|
    ensures Text(c, infos)[..k] == Text(c, infos[..n]) + rest && '\n' !in rest
  {
    var front := Text(c, infos[..n]);
    if n < |infos| {
      assert infos[..n + 1] == infos[..n] + [infos[n]];
      TextSnoc(c, infos[..n], infos[n]);
      TextPrefix(c, infos, n + 1);
      ReadsBack(c, infos[n]);
      CutLine(Text(c, infos), front, Body(c, infos[n]), k);
      rest := Body(c, infos[n])[..k - |front|];
    } else {
      assert infos[..n] == infos;
      rest := "";
    }
  }

  /** A text cut short anywhere yields exactly the infos of the lines that arrived whole. */
  lemma CutShort(c: Codec, infos: seq<Info>, k: nat) returns (n: nat)
    requires Encodable(c, infos) && k <= |Text(c, infos)|
    ensures n <= |infos| && Text(c, infos[..n]) <= Text(c, infos)[..k]
    ensures n < |infos| ==> k < |Text(c, infos[..n + 1])|
    ensures Read(c, Sent(Text(c, infos)[..k], true)) == Got(infos[..n])
  {
    n := WholeLines(c, infos, k);
    var rest := RestOfCut(c, infos, k, n);
    LinesOfText(c, infos[..n]);
    SplitFree(Text(c, infos[..n]), rest, '\n');
    var parts := Split(Text(c, infos)[..k], '\n');
    assert parts[..|parts| - 1] == Bodies(c, infos[..n]);
    ParseBodies(c, infos[..n]);
  }

  // Finding one peer

  function AddrsOf(infos: seq<Info>, target: nat): seq<nat> {
    if infos == [] then []
    else
      var last := infos[|infos| - 1];
      AddrsOf(infos[..|infos| - 1], target) + (if last.id == target then [last.addr] else [])
  }

  datatype Finding = NotFound | Failed | Crashed | Addrs(addrs: seq<nat>)

  method FindPeer(c: Codec, vpnPeers: seq<nat>, target: nat, ask: nat -> Response) returns (out: Finding)
    ensures out.NotFound? <==> target !in vpnPeers
    ensures target in vpnPeers ==>
              out == match Read(c, ask(vpnPeers[0]))
                     case Got(infos) => Addrs(AddrsOf(infos, target))
                     case Bad => Failed
                     case Panics => Crashed
  {
    if target !in vpnPeers {
      return NotFound;
    }
    var infos := RequestPeX(c, vpnPeers, ask);
    match infos {
      case Bad => return Failed;
      case Panics => return Crashed;
      case Got(all) =>
        var addrs: seq<nat> := [];
        for i := 0 to |all|
          invariant addrs == AddrsOf(all[..i], target)
        {
          assert all[..i + 1][..i] == all[..i];
          if all[i].id == target {
            addrs := addrs + [all[i].addr];
          }
        }
        assert all[..|all|] == all;
        return Addrs(addrs);
    }
  }

  lemma {:induction false} AddrsConcat(xs: seq<Info>, ys: seq<Info>, target: nat)
    ensures AddrsOf(xs + ys, target) == AddrsOf(xs, target) + AddrsOf(ys, target)
  {
    if ys == [] {
      assert xs + ys == xs;
    } else {
      assert (xs + ys)[..|xs + ys| - 1] == xs + ys[..|ys| - 1];
      AddrsConcat(xs, ys[..|ys| - 1], target);
    }
  }

  lemma {:induction false} AddrsOfOne(id: nat, addrs: seq<nat>, target: nat)
    ensures AddrsOf(Of(id, addrs), target) == if id == target then addrs else []
  {
    if addrs != [] {
      var n := |addrs| - 1;
      AddrsOfOne(id, addrs[..n], target);
      assert Of(id, addrs)[..n] == Of(id, addrs[..n]);
      assert addrs == addrs[..n] + [addrs[n]];
    }
  }

  function Repeated(times: nat, addrs: seq<nat>): seq<nat> {
    if times == 0 then [] else Repeated(times - 1, addrs) + addrs
  }

  lemma OneMore(peers: seq<nat>, target: nat)
    requires peers != []
    ensures var n := |peers| - 1;
            multiset(peers)[target] == multiset(peers[..n])[target] + if peers[n] == target then 1 else 0
  {
    assert peers == peers[..|peers| - 1] + [peers[|peers| - 1]];
  }

  /** A responder gives the addresses it has for the target as often as it lists the target. */
  lemma {:induction false} KnownAddrs(peers: seq<nat>, book: nat -> seq<nat>, requester: nat, target: nat)
    ensures AddrsOf(Known(peers, book, requester), target) ==
            if target == requester then [] else Repeated(multiset(peers)[target], book(target))
  {
    if peers != [] {
      var n := |peers| - 1;
      var p := peers[n];
      KnownAddrs(peers[..n], book, requester, target);
      OneMore(peers, target);
      if p != requester {
        AddrsConcat(Known(peers[..n], book, requester), Of(p, book(p)), target);
        AddrsOfOne(p, book(p), target);
      }
    }
  }

  /**
   * The whole exchange: what `FindPeer` makes of an honest answer from the peer it asks. A responder
   * that lists the target once gives exactly the addresses it has for it.
   */
  lemma FindsExactly(c: Codec, peers: seq<nat>, book: nat -> seq<nat>, requester: nat, target: nat)
    requires Encodable(c, Known(peers, book, requester))
    ensures var answer := Read(c, Sent(Text(c, Known(peers, book, requester)), true));
            && answer.Got?
            && AddrsOf(answer.infos, target) ==
               (if target == requester then [] else Repeated(multiset(peers)[target], book(target)))
            && (target != requester && multiset(peers)[target] == 1 ==> AddrsOf(answer.infos, target) == book(target))
  {
    RoundTrip(c, Known(peers, book, requester));
    KnownAddrs(peers, book, requester, target);
    assert Repeated(1, book(target)) == Repeated(0, book(target)) + book(target) == book(target);
  }
}
