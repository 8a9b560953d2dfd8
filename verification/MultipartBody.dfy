/**
 * The body state of `MultipartFormDataParser`: bytes arrive in arbitrary pieces and everything before the
 * first CRLF--boundary goes to the content callback (section 5.1.1 of RFC 2046).
 */
module MultipartBody {
  import opened Documents

  predicate OccursAt(s: string, d: string, p: int) {
    0 <= p <= |s| - |d| && s[p..p + |d|] == d
  }

  ghost predicate Occurs(s: string, d: string) {
    exists p :: OccursAt(s, d, p)
  }

  ghost predicate FirstAt(s: string, d: string, p: int) {
    OccursAt(s, d, p) && forall q :: q < p ==> !OccursAt(s, d, q)
  }

  /** Where the scanner must be after `input`: a function of the bytes alone, not of how they were cut up. */
  ghost predicate Scanned(input: string, d: string, state: nat, delivered: string, held: string) {
    if state == 3 then
      && !Occurs(input, d)
      && |held| == Min(|input|, |d|)
      && input == delivered + held
    else
      && state == 4
      && FirstAt(input, d, |delivered|)
      && input == delivered + d + held
  }

  /** An occurrence in a longer string lies in its prefix, or reaches past it. */
  lemma OccurrenceInPrefix(s: string, t: string, d: string, p: int)
    requires OccursAt(s + t, d, p) && p + |d| <= |s|
    ensures OccursAt(s, d, p)
  {
    assert (s + t)[p..p + |d|] == s[p..p + |d|];
  }

  lemma OccurrenceInSuffix(s: string, t: string, d: string, p: int)
    requires p >= |s|
    ensures OccursAt(s + t, d, p) <==> OccursAt(t, d, p - |s|)
  {
    if p <= |s| + |t| - |d| {
      assert (s + t)[p..p + |d|] == t[p - |s|..p - |s| + |d|];
    }
  }

  /** What has been delivered cannot be part of a delimiter that completes later. */
  lemma NoOccurrenceInDelivered(input: string, data: string, d: string, delivered: string, held: string, p: int)
    requires Scanned(input, d, 3, delivered, held)
    requires p < |delivered|
    ensures !OccursAt(input + data, d, p)
  {
    if OccursAt(input + data, d, p) {
      OccurrenceInPrefix(input, data, d, p);
    }
  }

  lemma FoundInWindow(input: string, data: string, d: string, delivered: string, held: string, pos: nat)
    requires Scanned(input, d, 3, delivered, held)
    requires FirstAt(held + data, d, pos)
    ensures var w := held + data;
            Scanned(input + data, d, 4, delivered + w[..pos], w[pos + |d|..])
  {
    var w := held + data;
    assert input + data == delivered + w;
    assert w == w[..pos] + d + w[pos + |d|..];
    assert delivered + w == delivered + w[..pos] + d + w[pos + |d|..];
    FirstOverall(input, data, d, delivered, held, pos);
  }

  lemma FirstOverall(input: string, data: string, d: string, delivered: string, held: string, pos: nat)
    requires Scanned(input, d, 3, delivered, held)
    requires FirstAt(held + data, d, pos)
    ensures FirstAt(input + data, d, |delivered| + pos)
  {
    var w := held + data;
    assert input + data == delivered + w;
    OccurrenceInSuffix(delivered, w, d, |delivered| + pos);
    forall q | q < |delivered| + pos ensures !OccursAt(input + data, d, q) {
      if q < |delivered| {
        NoOccurrenceInDelivered(input, data, d, delivered, held, q);
      } else {
        OccurrenceInSuffix(delivered, w, d, q);
      }
    }
  }

  lemma NotFoundInWindow(input: string, data: string, d: string, delivered: string, held: string)
    requires Scanned(input, d, 3, delivered, held)
    requires !Occurs(held + data, d)
    ensures var w := held + data;
            var len := if |w| > |d| then |w| - |d| else 0;
            Scanned(input + data, d, 3, delivered + w[..len], w[len..])
  {
    var w := held + data;
    assert input + data == delivered + w;
    if Occurs(input + data, d) {
      var q :| OccursAt(input + data, d, q);
      if q < |delivered| {
        NoOccurrenceInDelivered(input, data, d, delivered, held, q);
      } else {
        OccurrenceInSuffix(delivered, w, d, q);
      }
    }
  }

  /** The same bytes lead to the same state, the same deliveries and the same held bytes. */
  lemma ScanIsDetermined(input: string, d: string, s: nat, delivered: string, held: string, s': nat, delivered': string, held': string)
    requires Scanned(input, d, s, delivered, held) && Scanned(input, d, s', delivered', held')
    ensures s == s' && delivered == delivered' && held == held'
    ensures s == 4 <==> Occurs(input, d)
    ensures s == 3 ==> |held| <= |d|
  {
    if s == 4 && s' == 4 {
      assert |delivered| == |delivered'|;
      assert delivered == input[..|delivered|] && delivered' == input[..|delivered'|];
      assert held == input[|delivered| + |d|..] && held' == input[|delivered| + |d|..];
    } else if s == 3 && s' == 3 {
      assert delivered == input[..|delivered|] && delivered' == input[..|delivered'|];
      assert held == input[|delivered|..] && held' == input[|delivered'|..];
    }
  }

  lemma FirstCharDiffers(w: string, s: string, p: nat)
    requires |s| > 0 && p < |w| && w[p] != s[0]
    ensures !OccursAt(w, s, p)
  {
    if p <= |w| - |s| {
      assert w[p..p + |s|][0] == w[p];
    }
  }

  class BodyScanner {
    const delimiter: string
    var buf: string
    var spos: nat
    var epos: nat
    var state: nat
    /** What the content callback has received; it always accepts. */
    var delivered: string
    /** Every byte handed over since the body began. */
    ghost var input: string

    ghost predicate Valid()
      reads this
    {
      && spos <= epos <= |buf|
      && |delimiter| > 0
      && Scanned(input, delimiter, state, delivered, buf[spos..epos])
    }

    function Window(): string
      requires spos <= epos <= |buf|
      reads this
    {
      buf[spos..epos]
    }

    constructor (boundary: string)
      ensures Valid() && state == 3 && input == "" && delivered == ""
      ensures delimiter == "\r\n--" + boundary
    {
      delimiter := "\r\n--" + boundary;
      buf, spos, epos, state := "", 0, 0, 3;
      delivered, input := "", "";
    }

    /** Moves the held bytes to the front, grows the buffer if it must, and copies the new bytes behind them. */
    method BufAppend(data: string)
      requires spos <= epos <= |buf|
      modifies this`buf, this`spos, this`epos
      ensures spos <= epos <= |buf| && Window() == old(Window()) + data
    {
      ghost var w := Window();
      var remaining := epos - spos;
      if remaining > 0 && spos > 0 {
        MoveToFront(remaining);
      }
      assert forall k :: 0 <= k < remaining ==> buf[k] == w[k];
      spos := 0;
      epos := remaining;
      if remaining + |data| > |buf| {
        buf := buf + seq(remaining + |data| - |buf|, i => '\0');
      }
      CopyBehind(data);
      epos := epos + |data|;
      assert Window() == w + data;
    }

    /** The first loop of `buf_append`. */
    method MoveToFront(remaining: nat)
      requires remaining == epos - spos && spos <= epos <= |buf|
      modifies this`buf
      ensures |buf| == |old(buf)| && forall k :: 0 <= k < remaining ==> buf[k] == old(buf)[spos + k]
    {
      var i := 0;
      while i < remaining
        invariant 0 <= i <= remaining && |buf| == |old(buf)|
        invariant forall k :: 0 <= k < i ==> buf[k] == old(buf)[spos + k]
        invariant forall k :: i <= k < |buf| ==> buf[k] == old(buf)[k]
      {
        buf := buf[i := buf[spos + i]];
        i := i + 1;
      }
    }

    /** The second loop. */
    method CopyBehind(data: string)
      requires epos + |data| <= |buf|
      modifies this`buf
      ensures |buf| == |old(buf)| && forall k :: 0 <= k < epos ==> buf[k] == old(buf)[k]
      ensures forall k :: 0 <= k < |data| ==> buf[epos + k] == data[k]
    {
      var i := 0;
      while i < |data|
        invariant 0 <= i <= |data| && |buf| == |old(buf)|
        invariant forall k :: 0 <= k < epos ==> buf[k] == old(buf)[k]
        invariant forall k :: 0 <= k < i ==> buf[epos + k] == data[k]
      {
        buf := buf[epos + i := data[i]];
        i := i + 1;
      }
    }

    /** The length of the window stands for "not found". */
    method BufFind(s: string) returns (r: nat)
      requires spos <= epos <= |buf| && |s| > 0
      ensures r <= |Window()|
      ensures r < |Window()| ==> FirstAt(Window(), s, r)
      ensures r == |Window()| ==> !Occurs(Window(), s)
    {
      ghost var w := Window();
      var off := spos;
      while off < epos
        invariant spos <= off <= epos
        invariant forall q :: q < off - spos ==> !OccursAt(w, s, q)
      {
        var pos := off;
        while true
          invariant off <= pos <= epos
          invariant forall q :: q < pos - spos ==> !OccursAt(w, s, q)
          decreases epos - pos
        {
          if pos == epos {
            return epos - spos;
          }
          if buf[pos] == s[0] {
            break;
          }
          FirstCharDiffers(w, s, pos - spos);
          pos := pos + 1;
        }
        if |s| > epos - pos {
          return epos - spos;
        }
        var found := StartWith(pos, s);
        assert found <==> OccursAt(w, s, pos - spos);
        if found {
          return pos - spos;
        }
        off := pos + 1;
      }
      return epos - spos;
    }

    method StartWith(pos: nat, s: string) returns (r: bool)
      requires spos <= pos && pos + |s| <= epos <= |buf|
      ensures r <==> Window()[pos - spos..pos - spos + |s|] == s
    {
      ghost var part := Window()[pos - spos..pos - spos + |s|];
      var i := 0;
      while i < |s|
        invariant 0 <= i <= |s|
        invariant part[..i] == s[..i]
      {
        if buf[pos + i] != s[i] {
          assert part[i] != s[i];
          return false;
        }
        assert part[..i + 1] == part[..i] + [part[i]] && s[..i + 1] == s[..i] + [s[i]];
        i := i + 1;
      }
      assert part[..|s|] == part && s[..|s|] == s;
      return true;
    }

    /** The body case of the loop in `parse`: deliver up to the delimiter, or all that cannot be part of one. */
    method ScanWindow() returns (found: bool, pos: nat)
      requires spos <= epos <= |buf| && |delimiter| > 0 && state == 3
      modifies this`delivered, this`spos, this`state
      ensures spos <= epos
      ensures pos <= |old(Window())|
      ensures found ==> FirstAt(old(Window()), delimiter, pos) && pos + |delimiter| <= |old(Window())| && state == 4
      ensures !found ==> !Occurs(old(Window()), delimiter) && state == 3
      ensures !found ==> pos == if |old(Window())| > |delimiter| then |old(Window())| - |delimiter| else 0
      ensures delivered == old(delivered) + old(Window())[..pos]
      ensures Window() == old(Window())[if found then pos + |delimiter| else pos..]
    {
      ghost var w := Window();
      if epos - spos == 0 || |delimiter| > epos - spos {
        return false, 0;
      }
      pos := BufFind(delimiter);
      found := pos < epos - spos;
      if found {
        delivered := delivered + buf[spos..spos + pos];
        spos := spos + pos + |delimiter|;
        state := 4;
      } else {
        pos := epos - spos - |delimiter|;
        if pos > 0 {
          delivered := delivered + buf[spos..spos + pos];
          spos := spos + pos;
        }
      }
    }

    /** One call of `parse` in the body state, up to the point where the state is left. */
    method Parse(data: string)
      requires Valid() && state == 3
      modifies this
      ensures Valid() && input == old(input) + data
      ensures state == 3 || state == 4
    {
      ghost var before, held := delivered, Window();
      BufAppend(data);
      input := input + data;
      var found, pos := ScanWindow();
      if found {
        FoundInWindow(old(input), data, delimiter, before, held, pos);
      } else {
        NotFoundInWindow(old(input), data, delimiter, before, held);
      }
    }

    /**
     * Feeding any cut of a stream: the callback has received the bytes before the first delimiter if there is
     * one, and otherwise all but the last `|delimiter|` bytes. Pieces after the delimiter belong to later states.
     */
    method ParseAll(pieces: seq<string>)
      requires Valid() && state == 3 && input == ""
      modifies this
      ensures Valid()
      ensures state == 4 <==> Occurs(Joined(pieces), delimiter)
      ensures state == 4 ==> FirstAt(Joined(pieces), delimiter, |delivered|) && delivered == Joined(pieces)[..|delivered|]
      ensures state == 3 ==> input == Joined(pieces) == delivered + Window() && |Window()| == Min(|input|, |delimiter|)
      ensures state == 4 ==> exists rest :: Joined(pieces) == delivered + delimiter + rest
      ensures forall a, rest :: Joined(pieces) == a + delimiter + rest ==> state == 4 && |delivered| <= |a|
    {
      var i := 0;
      assert pieces[..0] == [];
      while i < |pieces| && state == 3
        invariant 0 <= i <= |pieces|
        invariant Valid() && (state == 3 || state == 4)
        invariant input == Joined(pieces[..i])
      {
        assert pieces[..i + 1][..i] == pieces[..i];
        Parse(pieces[i]);
        i := i + 1;
      }
      JoinedPrefix(pieces, i);
      if state == 4 {
        FirstInLonger(input, Joined(pieces)[|input|..], delimiter, |delivered|);
        assert Joined(pieces) == input + Joined(pieces)[|input|..];
      } else {
        assert pieces[..i] == pieces;
      }
      SplitsThere(Joined(pieces), delimiter);
    }
  }

  /** An occurrence is a way to write the string with the delimiter in it. */
  lemma SplitsThere(s: string, d: string)
    ensures forall p :: OccursAt(s, d, p) ==> s == s[..p] + d + s[p + |d|..]
    ensures forall a, rest :: s == a + d + rest ==> OccursAt(s, d, |a|)
  {
    forall p | OccursAt(s, d, p) ensures s == s[..p] + d + s[p + |d|..] {
      assert s == s[..p] + s[p..p + |d|] + s[p + |d|..];
    }
    forall a, rest | s == a + d + rest ensures OccursAt(s, d, |a|) {
      assert s[|a|..|a| + |d|] == d;
    }
  }

  function Joined(pieces: seq<string>): string {
    if pieces == [] then "" else Joined(pieces[..|pieces| - 1]) + pieces[|pieces| - 1]
  }

  lemma {:induction false} JoinedPrefix(pieces: seq<string>, i: nat)
    requires i <= |pieces|
    ensures |Joined(pieces[..i])| <= |Joined(pieces)|
    ensures Joined(pieces)[..|Joined(pieces[..i])|] == Joined(pieces[..i])
    decreases |pieces|
  {
    if i == |pieces| {
      assert pieces[..i] == pieces;
    } else {
      JoinedPrefix(pieces[..|pieces| - 1], i);
      assert pieces[..|pieces| - 1][..i] == pieces[..i];
    }
  }

  /** The first occurrence stays the first one when more bytes follow. */
  lemma FirstInLonger(s: string, t: string, d: string, p: int)
    requires FirstAt(s, d, p)
    ensures FirstAt(s + t, d, p)
  {
    assert (s + t)[p..p + |d|] == s[p..p + |d|];
    forall q | q < p ensures !OccursAt(s + t, d, q) {
      if OccursAt(s + t, d, q) {
        OccurrenceInPrefix(s, t, d, q);
      }
    }
  }
}
