/** A directory of snippet files, listed in the order of their paths, in which files are written, deleted and put back. */
module SnippetFiles {

  import opened Wrappers
  import opened WgQuick
  import opened PeerOrder

  /** A snippet file; the directory lists its files in the order of their paths. */
  datatype Entry = Entry(file: string, text: string)

  predicate PathBefore(a: string, b: string) {
    TextLe(a, b) && a != b
  }

  ghost predicate InPathOrder(entries: seq<Entry>) {
    forall i, j :: 0 <= i < j < |entries| ==> PathBefore(entries[i].file, entries[j].file)
  }

  function ReadFile(entries: seq<Entry>, file: string): Option<string> {
    if entries == [] then None else if entries[0].file == file then Some(entries[0].text) else ReadFile(entries[1..], file)
  }

  function PutFile(entries: seq<Entry>, file: string, text: string): seq<Entry> {
    if entries == [] then [Entry(file, text)]
    else if entries[0].file == file then [Entry(file, text)] + entries[1..]
    else if PathBefore(file, entries[0].file) then [Entry(file, text)] + entries
    else [entries[0]] + PutFile(entries[1..], file, text)
  }

  function DropFile(entries: seq<Entry>, file: string): seq<Entry> {
    if entries == [] then []
    else (if entries[0].file == file then [] else [entries[0]]) + DropFile(entries[1..], file)
  }

  lemma BeforeTransitive(a: string, b: string, c: string)
    requires PathBefore(a, b) && PathBefore(b, c)
    ensures PathBefore(a, c)
  {
    TextLeTransitive(a, b, c);
    TextLeTotal(a, b);
  }

  /** Files after the first one come behind it in path order. */
  lemma {:induction false} NotInFront(entries: seq<Entry>, file: string)
    requires InPathOrder(entries) && entries != [] && PathBefore(file, entries[0].file)
    ensures ReadFile(entries, file).None? && DropFile(entries, file) == entries
    ensures forall k :: 0 <= k < |entries| ==> PathBefore(file, entries[k].file)
  {
    if |entries| > 1 {
      BeforeTransitive(file, entries[0].file, entries[1].file);
      assert forall k :: 0 <= k < |entries[1..]| ==> entries[1..][k] == entries[k + 1];
      NotInFront(entries[1..], file);
    } else {
      assert entries[1..] == [];
    }
    assert entries == [entries[0]] + entries[1..];
  }

  lemma TailInOrder(entries: seq<Entry>)
    requires InPathOrder(entries) && entries != []
    ensures InPathOrder(entries[1..])
    ensures |entries| > 1 ==> PathBefore(entries[0].file, entries[1..][0].file)
    ensures DropFile(entries[1..], entries[0].file) == entries[1..]
  {
    if |entries| > 1 {
      NotInFront(entries[1..], entries[0].file);
    } else {
      assert entries[1..] == [];
    }
  }

  lemma PrependInOrder(first: Entry, rest: seq<Entry>)
    requires InPathOrder(rest) && forall k :: 0 <= k < |rest| ==> PathBefore(first.file, rest[k].file)
    ensures InPathOrder([first] + rest)
  {
  }

  /** All files of a directory have a property that depends on name and text. */
  ghost predicate AllFiles(entries: seq<Entry>, holds: Entry -> bool) {
    forall k :: 0 <= k < |entries| ==> holds(entries[k])
  }

  lemma {:induction false} PutAll(entries: seq<Entry>, file: string, text: string, holds: Entry -> bool)
    requires AllFiles(entries, holds) && holds(Entry(file, text))
    ensures AllFiles(PutFile(entries, file, text), holds)
  {
    if entries != [] {
      assert forall k :: 0 <= k < |entries[1..]| ==> entries[1..][k] == entries[k + 1];
      PutAll(entries[1..], file, text, holds);
    }
  }

  lemma {:induction false} DropAll(entries: seq<Entry>, file: string, holds: Entry -> bool)
    requires AllFiles(entries, holds)
    ensures AllFiles(DropFile(entries, file), holds)
  {
    if entries != [] {
      assert forall k :: 0 <= k < |entries[1..]| ==> entries[1..][k] == entries[k + 1];
      DropAll(entries[1..], file, holds);
    }
  }

  lemma {:induction false} PutInOrder(entries: seq<Entry>, file: string, text: string)
    requires InPathOrder(entries)
    ensures InPathOrder(PutFile(entries, file, text))
  {
    if entries != [] {
      var first, rest := entries[0], entries[1..];
      TailInOrder(entries);
      if file == first.file {
        assert forall k :: 0 <= k < |rest| ==> rest[k] == entries[k + 1];
        PrependInOrder(Entry(file, text), rest);
      } else if PathBefore(file, first.file) {
        NotInFront(entries, file);
        PrependInOrder(Entry(file, text), entries);
      } else {
        PutInOrder(rest, file, text);
        TextLeTotal(file, first.file);
        var later := (e: Entry) => PathBefore(first.file, e.file);
        assert AllFiles(rest, later) by {
          assert forall k :: 0 <= k < |rest| ==> rest[k] == entries[k + 1];
        }
        PutAll(rest, file, text, later);
        PrependInOrder(first, PutFile(rest, file, text));
      }
    }
  }

  lemma {:induction false} DropInOrder(entries: seq<Entry>, file: string)
    requires InPathOrder(entries)
    ensures InPathOrder(DropFile(entries, file))
  {
    if entries != [] {
      var first, rest := entries[0], entries[1..];
      TailInOrder(entries);
      DropInOrder(rest, file);
      var later := (e: Entry) => PathBefore(first.file, e.file);
      assert AllFiles(rest, later) by {
        assert forall k :: 0 <= k < |rest| ==> rest[k] == entries[k + 1];
      }
      DropAll(rest, file, later);
      if first.file == file {
        assert [] + DropFile(rest, file) == DropFile(rest, file);
      } else {
        PrependInOrder(first, DropFile(rest, file));
      }
    }
  }

  /** The directory as a map: writing one file leaves the others. */
  lemma {:induction false} ReadAfterPut(entries: seq<Entry>, file: string, text: string, other: string)
    requires InPathOrder(entries)
    ensures ReadFile(PutFile(entries, file, text), other) == if other == file then Some(text) else ReadFile(entries, other)
  {
    var added := Entry(file, text);
    if entries != [] {
      var first, rest := entries[0], entries[1..];
      if first.file == file {
        assert ([added] + rest)[1..] == rest;
      } else if PathBefore(file, first.file) {
        assert ([added] + entries)[1..] == entries;
      } else {
        TailInOrder(entries);
        ReadAfterPut(rest, file, text, other);
        assert ([first] + PutFile(rest, file, text))[1..] == PutFile(rest, file, text);
      }
    }
  }

  /** Deleting one file leaves the others. */
  lemma {:induction false} ReadAfterDrop(entries: seq<Entry>, file: string, other: string)
    ensures ReadFile(DropFile(entries, file), other) == if other == file then None else ReadFile(entries, other)
  {
    if entries != [] {
      var first, rest := entries[0], entries[1..];
      ReadAfterDrop(rest, file, other);
      if first.file == file {
        assert [] + DropFile(rest, file) == DropFile(rest, file);
      } else {
        assert ([first] + DropFile(rest, file))[1..] == DropFile(rest, file);
      }
    }
  }

  /** Writing a file's old content back, or deleting a file that was not there, undoes writing it. */
  lemma {:induction false} PutUndone(entries: seq<Entry>, file: string, text: string)
    requires InPathOrder(entries)
    ensures ReadFile(entries, file).Some? ==> PutFile(PutFile(entries, file, text), file, ReadFile(entries, file).value) == entries
    ensures ReadFile(entries, file).None? ==> DropFile(PutFile(entries, file, text), file) == entries
  {
    var added := Entry(file, text);
    if entries == [] {
      assert [added][1..] == [];
      assert [] + DropFile([], file) == [];
    } else {
      var first, rest := entries[0], entries[1..];
      assert entries == [first] + rest;
      TailInOrder(entries);
      if first.file == file {
        assert ([added] + rest)[1..] == rest;
      } else if PathBefore(file, first.file) {
        NotInFront(entries, file);
        assert ([added] + entries)[1..] == entries;
        assert [] + DropFile(entries, file) == entries;
      } else {
        PutUndone(rest, file, text);
        assert ([first] + PutFile(rest, file, text))[1..] == PutFile(rest, file, text);
      }
    }
  }

  /** Writing a deleted file again undoes deleting it. */
  lemma {:induction false} DropUndone(entries: seq<Entry>, file: string)
    requires InPathOrder(entries)
    ensures ReadFile(entries, file).Some? ==> PutFile(DropFile(entries, file), file, ReadFile(entries, file).value) == entries
    ensures ReadFile(entries, file).None? ==> DropFile(entries, file) == entries
  {
    if entries != [] {
      var first, rest := entries[0], entries[1..];
      assert entries == [first] + rest;
      TailInOrder(entries);
      if first.file == file {
        assert [] + DropFile(rest, file) == rest;
      } else {
        DropUndone(rest, file);
        assert ([first] + DropFile(rest, file))[1..] == DropFile(rest, file);
        if ReadFile(rest, file).Some? {
          ReadIsLater(rest, file, first.file);
        }
      }
    }
  }

  lemma {:induction false} ReadIsLater(entries: seq<Entry>, file: string, before: string)
    requires InPathOrder(entries) && ReadFile(entries, file).Some? && PathBefore(before, entries[0].file)
    ensures PathBefore(before, file) && !PathBefore(file, before)
  {
    if entries[0].file != file {
      TailInOrder(entries);
      BeforeTransitive(before, entries[0].file, entries[1..][0].file);
      ReadIsLater(entries[1..], file, before);
    }
    TextLeTotal(before, file);
  }

}
