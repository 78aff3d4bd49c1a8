/** list_files of the client (dfc.c): ask every connected server for its
    names, merge them without duplicates into a table of at most 100
    names, then run the completeness check on each name. What each server
    answers is an input. */
module Listing {
  import opened Strings
  import opened Client
  import opened Download
  import opened Placement
  import opened NameTable

  /** The table after the tokens of one reply. */
  function MergeLines(files: seq<string>, lines: seq<string>): (r: seq<string>)
    ensures |files| <= MaxNames ==> |r| <= MaxNames
    ensures |files| <= |r|
  {
    if lines == [] then files else Admit(MergeLines(files, lines[..|lines| - 1]), lines[|lines| - 1])
  }

  /** The table after the replies of the first n servers. */
  function Listed(servers: seq<Server>, replies: seq<string>, n: nat): (files: seq<string>)
    requires n <= |servers| == |replies|
    ensures |files| <= MaxNames
  {
    if n == 0 then []
    else
      var before := Listed(servers, replies, n - 1);
      if servers[n - 1].connected && |replies[n - 1]| > 0 then MergeLines(before, Lines(replies[n - 1])) else before
  }

  /** The CHECK requests list_files makes for its names, one broadcast per name. */
  function CheckTraces(servers: seq<Server>, names: seq<string>): seq<Sent>
    requires names == [] || |servers| >= 1
  {
    if names == [] then []
    else CheckTraces(servers, names[..|names| - 1]) + Broadcast(servers, |servers|, CheckCommand(names[|names| - 1]))
  }

  /** The merge loop for the tokens of one reply, over the files table. */
  method MergeReply(files: array<string>, count: nat, lines: seq<string>) returns (newCount: nat)
    requires files.Length == MaxNames && count <= MaxNames
    modifies files
    ensures newCount <= MaxNames
    ensures files[..newCount] == MergeLines(old(files[..count]), lines)
  {
    newCount := count;
    for k := 0 to |lines|
      invariant newCount <= MaxNames
      invariant files[..newCount] == MergeLines(old(files[..count]), lines[..k])
    {
      assert lines[..k + 1][..k] == lines[..k];
      var line := lines[k];
      var found := Find(files, newCount, line);
      if !found && newCount < MaxNames {
        files[newCount] := Truncate(line);
        newCount := newCount + 1;
      }
    }
    assert lines[..|lines|] == lines;
  }

  /** The first half of list_files: send LIST to every connected server
      and merge the tokens of every non-empty reply into the table. */
  method CollectNames(servers: seq<Server>, replies: seq<string>)
    returns (sent: seq<Sent>, names: seq<string>)
    requires |replies| == |servers|
    ensures names == Listed(servers, replies, |servers|)
    ensures sent == Broadcast(servers, |servers|, "LIST")
  {
    var files := new string[MaxNames](_ => "");
    var count: nat := 0;
    sent := [];
    for i := 0 to |servers|
      invariant count <= MaxNames
      invariant files[..count] == Listed(servers, replies, i)
      invariant sent == Broadcast(servers, i, "LIST")
    {
      if !servers[i].connected {
        continue;
      }
      sent := sent + [Sent(i, Command("LIST"))];
      if |replies[i]| > 0 {
        count := MergeReply(files, count, Lines(replies[i]));
      }
    }
    names := files[..count];
  }

  /** The second half of list_files: check each kept name for
      completeness. checkReplies(name) is what the servers answer to
      CHECK name. */
  method CheckNames(servers: seq<Server>, names: seq<string>, hashOf: string -> nat,
                    checkReplies: string -> seq<string>)
    returns (sent: seq<Sent>, complete: seq<bool>)
    requires names == [] || PlacementDefined(servers)
    requires forall name :: |checkReplies(name)| == |servers|
    ensures sent == CheckTraces(servers, names)
    ensures |complete| == |names|
    ensures forall k :: 0 <= k < |names| ==>
      (complete[k] <==> Complete(servers, Rotation(hashOf(names[k]), |servers|), checkReplies(names[k])))
  {
    sent := [];
    complete := [];
    for i := 0 to |names|
      invariant |complete| == i
      invariant sent == CheckTraces(servers, names[..i])
      invariant forall k :: 0 <= k < i ==>
        (complete[k] <==> Complete(servers, Rotation(hashOf(names[k]), |servers|), checkReplies(names[k])))
    {
      assert names[..i + 1][..i] == names[..i];
      var checks, ok := CheckFileCompleteness(servers, names[i], hashOf, checkReplies(names[i]));
      sent := sent + checks;
      complete := complete + [ok];
    }
    assert names[..|names|] == names;
  }

  /** list_files: LIST broadcast and merge, then a CHECK per kept name.
      An empty roster sends nothing and lists nothing ("no files found"). */
  method ListFiles(servers: seq<Server>, replies: seq<string>, hashOf: string -> nat,
                   checkReplies: string -> seq<string>)
    returns (sent: seq<Sent>, names: seq<string>, complete: seq<bool>)
    requires (|servers| == 0 || PlacementDefined(servers)) && |replies| == |servers|
    requires forall name :: |checkReplies(name)| == |servers|
    ensures names == Listed(servers, replies, |servers|)
    ensures |servers| == 0 ==> names == [] && sent == [] && complete == []
    ensures sent == Broadcast(servers, |servers|, "LIST") + CheckTraces(servers, names)
    ensures |complete| == |names|
    ensures forall k :: 0 <= k < |names| ==>
      (complete[k] <==> Complete(servers, Rotation(hashOf(names[k]), |servers|), checkReplies(names[k])))
  {
    var listSent, checkSent;
    listSent, names := CollectNames(servers, replies);
    checkSent, complete := CheckNames(servers, names, hashOf, checkReplies);
    sent := listSent + checkSent;
  }

  /** Every token of every reply fits a table slot unshortened; the storage
      node's names always do. */
  predicate ShortReplies(replies: seq<string>)
  {
    forall i, l :: 0 <= i < |replies| && l in Lines(replies[i]) ==> |l| <= NameLimit
  }

  /** Merging only appends: the table before is a prefix of the table after. */
  lemma {:induction false} MergeLinesExtends(files: seq<string>, lines: seq<string>)
    ensures files <= MergeLines(files, lines)
  {
    if lines != [] {
      MergeLinesExtends(files, lines[..|lines| - 1]);
    }
  }

  /** Merging short tokens into a table without duplicates leaves none. */
  lemma {:induction false} MergeLinesDistinct(files: seq<string>, lines: seq<string>)
    requires Distinct(files)
    requires forall l :: l in lines ==> |l| <= NameLimit
    ensures Distinct(MergeLines(files, lines))
  {
    if lines != [] {
      var init := lines[..|lines| - 1];
      assert forall l :: l in init ==> l in lines;
      MergeLinesDistinct(files, init);
    }
  }

  /** Every name the merge adds is a (truncated) token of the reply. */
  lemma {:induction false} MergeLinesProvenance(files: seq<string>, lines: seq<string>, name: string)
    requires name in MergeLines(files, lines)
    ensures name in files || exists l :: l in lines && name == Truncate(l)
  {
    if lines != [] {
      var init := lines[..|lines| - 1];
      var last := lines[|lines| - 1];
      if name !in MergeLines(files, init) {
        assert name == Truncate(last);
      } else {
        MergeLinesProvenance(files, init, name);
        if name !in files {
          var l :| l in init && name == Truncate(l);
          assert l in lines;
        }
      }
    }
  }

  /** While the table has room, every short token ends up in it. */
  lemma {:induction false} MergeLinesComplete(files: seq<string>, lines: seq<string>, l: string)
    requires l in lines && |l| <= NameLimit
    requires |MergeLines(files, lines)| < MaxNames
    ensures l in MergeLines(files, lines)
  {
    var init := lines[..|lines| - 1];
    var last := lines[|lines| - 1];
    MergeLinesExtends(MergeLines(files, init), [last]);
    assert MergeLines(MergeLines(files, init), [last]) == MergeLines(files, lines) by {
      assert [last][..0] == [];
    }
    if l != last {
      assert l in init;
      MergeLinesComplete(files, init, l);
    }
  }

  /** list_files keeps no name twice, as long as no token needs truncating. */
  lemma {:induction false} ListedDistinct(servers: seq<Server>, replies: seq<string>, n: nat)
    requires n <= |servers| == |replies|
    requires ShortReplies(replies)
    ensures Distinct(Listed(servers, replies, n))
  {
    if n > 0 {
      var before := Listed(servers, replies, n - 1);
      ListedDistinct(servers, replies, n - 1);
      if servers[n - 1].connected && |replies[n - 1]| > 0 {
        var lines := Lines(replies[n - 1]);
        assert forall l :: l in lines ==> |l| <= NameLimit by {
          forall l | l in lines
            ensures |l| <= NameLimit
          {
            assert 0 <= n - 1 < |replies| && l in Lines(replies[n - 1]);
          }
        }
        MergeLinesDistinct(before, lines);
        assert Listed(servers, replies, n) == MergeLines(before, lines);
      } else {
        assert Listed(servers, replies, n) == before;
      }
    }
  }

  /** Every listed name is a token, cut to 255 characters, of the reply of
      a connected server. */
  lemma {:induction false} ListedProvenance(servers: seq<Server>, replies: seq<string>, n: nat, name: string)
    requires n <= |servers| == |replies|
    requires name in Listed(servers, replies, n)
    ensures exists i, l :: 0 <= i < n && servers[i].connected && l in Lines(replies[i]) && name == Truncate(l)
  {
    var before := Listed(servers, replies, n - 1);
    if name in before {
      ListedProvenance(servers, replies, n - 1, name);
    } else {
      MergeLinesProvenance(before, Lines(replies[n - 1]), name);
    }
  }

  /** Below the cap of 100 names, every token of every connected server's
      reply is listed. */
  lemma {:induction false} ListedComplete(servers: seq<Server>, replies: seq<string>, n: nat, i: nat, l: string)
    requires n <= |servers| == |replies| && i < n
    requires servers[i].connected && l in Lines(replies[i]) && |l| <= NameLimit
    requires |Listed(servers, replies, n)| < MaxNames
    ensures l in Listed(servers, replies, n)
  {
    var before := Listed(servers, replies, n - 1);
    var grows := servers[n - 1].connected && |replies[n - 1]| > 0;
    if grows {
      MergeLinesExtends(before, Lines(replies[n - 1]));
    }
    if i < n - 1 {
      ListedComplete(servers, replies, n - 1, i, l);
    } else {
      assert |replies[i]| > 0;
      MergeLinesComplete(before, Lines(replies[i]), l);
    }
  }
}
