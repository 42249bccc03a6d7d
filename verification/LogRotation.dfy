/**
 Writing to a size-rotated log: the file operations of one write, and what the files together
 hold after any sequence of writes. File operations succeed; a character is a byte.
 */
module LogRotation {
  import opened Wrappers

  /** The file being written, or the one set aside with the given number, 1 being the newest. */
  datatype LogName = Active | Numbered(index: nat)

  type Files = map<LogName, string>

  function NameOf(slot: nat): LogName { if slot == 0 then Active else Numbered(slot) }

  function Lookup(files: Files, slot: nat): Option<string> {
    if NameOf(slot) in files then Some(files[NameOf(slot)]) else None
  }

  function Rename(files: Files, from: LogName, to: LogName): Files
    requires from in files
  {
    (files - {from})[to := files[from]]
  }

  /** The files of one log, the active one first. */
  type Slots = seq<Option<string>>

  function Contents(slot: Option<string>): string { if slot.Some? then slot.value else "" }

  predicate Full(slot: Option<string>, limit: nat) { limit > 0 && slot.Some? && |slot.value| >= limit }

  function SlotsOf(files: Files, maxFiles: nat): (slots: Slots)
    ensures |slots| == maxFiles + 1
    ensures forall k :: 0 <= k <= maxFiles ==> slots[k] == Lookup(files, k)
  {
    seq(maxFiles + 1, k requires 0 <= k <= maxFiles => Lookup(files, k))
  }

  lemma Renamed(files: Files, from: nat, to: nat)
    requires NameOf(from) in files && from != to
    ensures forall k :: Lookup(Rename(files, NameOf(from), NameOf(to)), k) ==
                        if k == to then Lookup(files, from) else if k == from then None else Lookup(files, k)
  {
  }

  /** Every file moves up one number and the last falls off. */
  function Shifted(slots: Slots): (shifted: Slots)
    requires slots != []
    ensures |shifted| == |slots|
  {
    [None] + slots[..|slots| - 1]
  }

  /** Midway through a rotation: files above number i have moved, leaving number i + 1 free. */
  ghost predicate MovedDownTo(before: Files, now: Files, i: nat, maxFiles: nat) {
    && (forall k :: 0 <= k <= i ==> Lookup(now, k) == Lookup(before, k))
    && Lookup(now, i + 1) == None
    && (forall k :: i + 2 <= k <= maxFiles ==> Lookup(now, k) == Lookup(before, k - 1))
    && SameAbove(before, now, maxFiles)
  }

  /** Files numbered higher, from a time when more were kept, are left alone. */
  ghost predicate SameAbove(before: Files, now: Files, maxFiles: nat) {
    forall k :: k > maxFiles ==> Lookup(now, k) == Lookup(before, k)
  }

  lemma MoveOne(before: Files, now: Files, i: nat, maxFiles: nat)
    requires 1 <= i < maxFiles && MovedDownTo(before, now, i, maxFiles)
    ensures MovedDownTo(before, if NameOf(i) in now then Rename(now, NameOf(i), NameOf(i + 1)) else now, i - 1, maxFiles)
  {
    hide Rename;
    if NameOf(i) in now {
      Renamed(now, i, i + 1);
    }
  }

  lemma MoveActive(before: Files, now: Files, maxFiles: nat)
    requires maxFiles >= 1 && MovedDownTo(before, now, 0, maxFiles)
    ensures var after := if NameOf(0) in now then Rename(now, NameOf(0), NameOf(1)) else now;
            SlotsOf(after, maxFiles) == Shifted(SlotsOf(before, maxFiles)) && SameAbove(before, after, maxFiles)
  {
    hide Rename, SlotsOf;
    if NameOf(0) in now {
      Renamed(now, 0, 1);
    }
    SlotsShift(before, if NameOf(0) in now then Rename(now, NameOf(0), NameOf(1)) else now, maxFiles);
  }

  lemma SlotsShift(before: Files, after: Files, maxFiles: nat)
    requires Lookup(after, 0) == None && forall k :: 1 <= k <= maxFiles ==> Lookup(after, k) == Lookup(before, k - 1)
    ensures SlotsOf(after, maxFiles) == Shifted(SlotsOf(before, maxFiles))
  {
  }

  lemma RemoveLast(before: Files, maxFiles: nat)
    requires maxFiles >= 1
    ensures MovedDownTo(before, before - {NameOf(maxFiles)}, maxFiles - 1, maxFiles)
  {
  }

  function Written(slots: Slots, limit: nat, message: string): (after: Slots)
    requires slots != []
    ensures |after| == |slots|
  {
    var room := if Full(slots[0], limit) then Shifted(slots) else slots;
    room[0 := Some(Contents(room[0]) + message + "\n")]
  }

  class FileLogger {
    const limit: nat
    const maxFiles: nat
    var files: Files

    function View(): (slots: Slots)
      reads this
      ensures |slots| == maxFiles + 1
    {
      SlotsOf(files, maxFiles)
    }

    /** At least one file is kept beside the active one. */
    constructor (limit: nat, maxFiles: nat)
      requires maxFiles < 0x8000_0000
      ensures this.limit == limit && this.maxFiles == if maxFiles < 1 then 1 else maxFiles
      ensures files == map[]
    {
      this.limit := limit;
      this.maxFiles := if maxFiles < 1 then 1 else maxFiles;
      files := map[];
    }

    method RotateLogs()
      requires maxFiles >= 1
      modifies this
      ensures View() == Shifted(old(View()))
      ensures SameAbove(old(files), files, maxFiles)
    {
      hide MovedDownTo, SameAbove, SlotsOf;
      RemoveLast(files, maxFiles);
      files := files - {Numbered(maxFiles)};
      var i := maxFiles - 1;
      while i >= 1
        invariant 0 <= i < maxFiles
        invariant MovedDownTo(old(files), files, i, maxFiles)
      {
        MoveOne(old(files), files, i, maxFiles);
        if Numbered(i) in files {
          files := Rename(files, Numbered(i), Numbered(i + 1));
        }
        i := i - 1;
      }
      MoveActive(old(files), files, maxFiles);
      if Active in files {
        files := Rename(files, Active, Numbered(1));
      }
    }

    method OutputToFile(message: string)
      requires maxFiles >= 1
      modifies this
      ensures View() == Written(old(View()), limit, message)
      ensures SameAbove(old(files), files, maxFiles)
    {
      if limit > 0 && Active in files && |files[Active]| >= limit {
        RotateLogs();
      }
      label room:
      var contents := if Active in files then files[Active] else "";
      files := files[Active := contents + message + "\n"];
      assert View() == old@room(View())[0 := Some(contents + message + "\n")];
    }
  }

  // ---------------------------------------------------------------- runs of writes

  function Run(limit: nat, maxFiles: nat, messages: seq<string>): (slots: Slots)
    ensures |slots| == maxFiles + 1
  {
    if messages == [] then seq(maxFiles + 1, _ => None)
    else Written(Run(limit, maxFiles, messages[..|messages| - 1]), limit, messages[|messages| - 1])
  }

  /** Everything ever written. */
  function History(messages: seq<string>): string {
    if messages == [] then ""
    else History(messages[..|messages| - 1]) + messages[|messages| - 1] + "\n"
  }

  /** Adds a line to the newest file, or to a new one if that is full. */
  function WithLine(files: seq<string>, limit: nat, line: string): (after: seq<string>)
    ensures after != []
  {
    if files == [] || (limit > 0 && |files[|files| - 1]| >= limit) then files + [line]
    else files[|files| - 1 := files[|files| - 1] + line]
  }

  /** The files, oldest first, that the same writes would fill if none were ever removed. */
  function AllFiles(limit: nat, messages: seq<string>): (files: seq<string>)
    ensures messages != [] ==> files != []
  {
    if messages == [] then []
    else WithLine(AllFiles(limit, messages[..|messages| - 1]), limit, messages[|messages| - 1] + "\n")
  }

  /** The slots show the newest of all files, newest first, without a gap. */
  predicate ShowsNewest(slots: Slots, files: seq<string>) {
    forall k :: 0 <= k < |slots| ==> slots[k] == if k < |files| then Some(files[|files| - 1 - k]) else None
  }

  lemma WriteKeepsNewest(slots: Slots, files: seq<string>, limit: nat, message: string)
    requires slots != [] && ShowsNewest(slots, files)
    ensures ShowsNewest(Written(slots, limit, message), WithLine(files, limit, message + "\n"))
  {
    assert Contents(slots[0]) + message + "\n" == Contents(slots[0]) + (message + "\n");
    assert "" + message + "\n" == message + "\n";
  }

  /** Over every run the files kept are the newest of those that were ever made, in order and whole. */
  lemma {:induction false} KeptAreNewest(limit: nat, maxFiles: nat, messages: seq<string>)
    ensures ShowsNewest(Run(limit, maxFiles, messages), AllFiles(limit, messages))
  {
    hide Written, WithLine;
    if messages != [] {
      var init, m := messages[..|messages| - 1], messages[|messages| - 1];
      KeptAreNewest(limit, maxFiles, init);
      WriteKeepsNewest(Run(limit, maxFiles, init), AllFiles(limit, init), limit, m);
    }
  }

  function Joined(files: seq<string>): string {
    if files == [] then "" else Joined(files[..|files| - 1]) + files[|files| - 1]
  }

  /** All files together are the history. */
  lemma {:induction false} AllFilesHoldHistory(limit: nat, messages: seq<string>)
    ensures Joined(AllFiles(limit, messages)) == History(messages)
  {
    if messages != [] {
      var init, line := messages[..|messages| - 1], messages[|messages| - 1] + "\n";
      AllFilesHoldHistory(limit, init);
      var files := AllFiles(limit, init);
      var after := AllFiles(limit, messages);
      assert History(messages) == History(init) + line;
      if files == [] || (limit > 0 && |files[|files| - 1]| >= limit) {
        assert after[..|after| - 1] == files;
      } else {
        var n := |files| - 1;
        assert after[..n] == files[..n];
        assert Joined(files[..n]) + (files[n] + line) == Joined(files[..n]) + files[n] + line;
      }
    }
  }

  /** Only a file that reached the limit is set aside, and only below the limit is a file appended to. */
  lemma {:induction false} FileSizes(limit: nat, messages: seq<string>)
    requires messages != []
    ensures var files := AllFiles(limit, messages);
            && (limit == 0 ==> |files| == 1)
            && (forall i :: 0 <= i < |files| - 1 ==> limit <= |files[i]|)
            && (limit > 0 ==> |files[|files| - 1]| <= limit + |messages[|messages| - 1]|)
  {
    var init := messages[..|messages| - 1];
    if init != [] {
      FileSizes(limit, init);
    }
  }

  // ---------------------------------------------------------------- what is retained

  /** The slots read from the oldest to the active one. */
  function Retained(slots: Slots): string {
    if slots == [] then "" else Retained(slots[1..]) + Contents(slots[0])
  }

  lemma {:induction false} JoinedSplit(files: seq<string>, n: nat)
    requires n <= |files|
    ensures Joined(files) == Joined(files[..n]) + Joined(files[n..])
  {
    if n == |files| {
      assert files[..n] == files && files[n..] == [];
    } else {
      var last := |files| - 1;
      JoinedSplit(files[..last], n);
      assert files[..last][..n] == files[..n];
      assert files[..last][n..] == files[n..][..last - n] == files[n..last];
      assert Joined(files[n..]) == Joined(files[n..last]) + files[last];
      assert Joined(files) == Joined(files[..n]) + Joined(files[n..last]) + files[last];
    }
  }

  /** Reading the slots gives the newest files joined. */
  lemma {:induction false} RetainedIsJoined(slots: Slots, files: seq<string>)
    requires ShowsNewest(slots, files)
    ensures Retained(slots) == Joined(files[if |slots| < |files| then |files| - |slots| else 0..])
  {
    if slots == [] {
      assert files[|files|..] == [];
    } else if files == [] {
      RetainedIsJoined(slots[1..], []);
    } else {
      var last := |files| - 1;
      RetainedIsJoined(slots[1..], files[..last]);
      var from := if |slots| < |files| then |files| - |slots| else 0;
      assert files[..last][from..] == files[from..][..last - from];
    }
  }

  lemma {:induction false} JoinedLength(files: seq<string>, limit: nat)
    requires forall i :: 0 <= i < |files| ==> |files[i]| >= limit
    ensures |Joined(files)| >= |files| * limit
  {
    if files != [] {
      JoinedLength(files[..|files| - 1], limit);
    }
  }

  /**
   After any writes the files together hold a suffix of everything written. It is all of it
   unless every slot was filled, and then it holds at least as many limits as files are kept.
   */
  lemma RetainedIsSuffix(limit: nat, maxFiles: nat, messages: seq<string>)
    ensures var retained := Retained(Run(limit, maxFiles, messages));
            var history := History(messages);
            && |retained| <= |history| && history[|history| - |retained|..] == retained
            && (retained == history || |retained| >= maxFiles * limit)
  {
    hide Run, AllFiles, Retained, History, Joined;
    var slots, files := Run(limit, maxFiles, messages), AllFiles(limit, messages);
    KeptAreNewest(limit, maxFiles, messages);
    RetainedIsJoined(slots, files);
    AllFilesHoldHistory(limit, messages);
    if |slots| < |files| {
      var from := |files| - |slots|;
      JoinedSplit(files, from);
      AllMade(limit, messages);
      NewestAreFull(limit, messages, maxFiles);
    } else {
      assert files[0..] == files;
    }
  }

  lemma AllMade(limit: nat, messages: seq<string>)
    ensures messages == [] ==> AllFiles(limit, messages) == []
  {
  }

  /** The newest files, the active one included, hold a limit for each but the active one. */
  lemma NewestAreFull(limit: nat, messages: seq<string>, n: nat)
    requires messages != [] && n < |AllFiles(limit, messages)|
    ensures var files := AllFiles(limit, messages); |Joined(files[|files| - (n + 1)..])| >= n * limit
  {
    hide AllFiles, Joined;
    var files := AllFiles(limit, messages);
    var newest := files[|files| - (n + 1)..];
    FileSizes(limit, messages);
    JoinedLength(newest[..n], limit);
    JoinedSplit(newest, n);
  }

  /** Sizes over every run: a file set aside has reached the limit, the active one is a last message past it at most. */
  lemma {:induction false} SlotSizes(limit: nat, maxFiles: nat, messages: seq<string>)
    requires messages != []
    ensures var slots := Run(limit, maxFiles, messages);
            && slots[0].Some?
            && (limit > 0 ==> |slots[0].value| <= limit + |messages[|messages| - 1]|)
            && (forall k :: 1 <= k <= maxFiles && slots[k].Some? ==> slots[k - 1].Some? && 0 < limit <= |slots[k].value|)
  {
    KeptAreNewest(limit, maxFiles, messages);
    FileSizes(limit, messages);
  }
}
