/**
 * `read_bat_state` (batmeter.py:39-55): turns the lines of a battery's
 * `uevent` file into a dictionary of device properties, stamped with the
 * time of the read. The file is an input here: `None` when it cannot be
 * opened, otherwise the list `file.readlines()` returns; the timestamp is
 * the text of `str(time())`.
 */
module DeviceReader {
  import opened Wrappers
  import opened Text

  /** One device reading, as it is stored: property name to text value. */
  type Uevent = map<string, string>

  /** The vendor prefix the kernel puts before each property name. */
  const Prefix: string := "POWER_SUPPLY_"

  /** Why a read fails: the file cannot be opened, or a line has no `=`. */
  datatype ParseError = FileNotFound | MissingSeparator(line: nat)

  datatype Entry = Entry(key: string, val: string)

  /** Python's `KeyError`: a dictionary lookup of a missing key. */
  datatype KeyError = KeyError(key: string)

  /** A line with every newline deleted, then every `POWER_SUPPLY_` deleted. */
  function Normalize(line: string): string
  {
    DeleteAll(DeleteAll(line, "\n"), Prefix)
  }

  /** Key and value of one line; `None` where `data.split("=")[1]` raises. */
  function ParseLine(line: string): Option<Entry>
  {
    var pieces := Split(Normalize(line), '=');
    if |pieces| < 2 then None else Some(Entry(pieces[0], pieces[1]))
  }

  /** The dictionary after the lines in order, or the first line that fails. */
  function ParseAll(lines: seq<string>): Result<Uevent, ParseError>
  {
    if lines == [] then Success(map[])
    else
      var last := |lines| - 1;
      match ParseAll(lines[..last])
      case Failure(e) => Failure(e)
      case Success(m) =>
        match ParseLine(lines[last])
        case None => Failure(MissingSeparator(last))
        case Some(entry) => Success(m[entry.key := entry.val])
  }

  /** What `read_bat_state` returns or raises. */
  function ParseUevent(file: Option<seq<string>>, now: string): Result<Uevent, ParseError>
  {
    match file
    case None => Failure(FileNotFound)
    case Some(lines) =>
      match ParseAll(lines)
      case Failure(e) => Failure(e)
      case Success(m) => Success(m["DATETIME" := now])
  }

  /** `read_bat_state`: fills the dictionary line by line, then adds `DATETIME`. */
  method ReadBatState(file: Option<seq<string>>, now: string) returns (r: Result<Uevent, ParseError>)
    ensures r == ParseUevent(file, now)
    ensures r.Success? ==> "DATETIME" in r.value && r.value["DATETIME"] == now
  {
    if file.None? {
      return Failure(FileNotFound);
    }
    var lines := file.value;
    var uevent: Uevent := map[];
    var i := 0;
    while i < |lines|
      invariant 0 <= i <= |lines|
      invariant ParseAll(lines[..i]) == Success(uevent)
    {
      assert lines[..i + 1][..i] == lines[..i];
      var data := DeleteAll(lines[i], "\n");
      data := DeleteAll(data, Prefix);
      var pieces := Split(data, '=');
      if |pieces| < 2 {
        ParseAllFailurePersists(lines, i + 1);
        return Failure(MissingSeparator(i));
      }
      uevent := uevent[pieces[0] := pieces[1]];
      i := i + 1;
    }
    assert lines[..|lines|] == lines;
    uevent := uevent["DATETIME" := now];
    return Success(uevent);
  }

  /** Once a prefix of the lines fails, the whole file fails the same way. */
  lemma {:induction false} ParseAllFailurePersists(lines: seq<string>, k: nat)
    requires k <= |lines| && ParseAll(lines[..k]).Failure?
    ensures ParseAll(lines) == ParseAll(lines[..k])
    decreases |lines|
  {
    if k < |lines| {
      var init := lines[..|lines| - 1];
      assert init[..k] == lines[..k];
      ParseAllFailurePersists(init, k);
    } else {
      assert lines[..k] == lines;
    }
  }

  /** A line parses exactly when, after normalising, it holds an `=`. */
  lemma ParseLineSome(line: string)
    ensures ParseLine(line).Some? <==> '=' in Normalize(line)
  {
    CountZero(Normalize(line), '=');
  }

  /**
   * The key of a line that parses is the normalised text before the first
   * `=`, its value the text between the first and the second `=` (or the
   * end of the line).
   */
  lemma ParseLineFields(line: string)
    requires ParseLine(line).Some?
    ensures var s, k, v := Normalize(line), ParseLine(line).value.key, ParseLine(line).value.val;
      && '=' !in k && '=' !in v
      && |k| + 1 + |v| <= |s|
      && s[..|k|] == k && s[|k|] == '='
      && s[|k| + 1..|k| + 1 + |v|] == v
      && (|k| + 1 + |v| == |s| || s[|k| + 1 + |v|] == '=')
  {
    var s := Normalize(line);
    var pieces := Split(s, '=');
    SplitJoin(s, '=');
    SplitPiecesFree(s, '=');
    var k, v := pieces[0], pieces[1];
    var tail := Join(pieces[1..], '=');
    assert s == k + ['='] + tail;
    if |pieces| == 2 {
      assert tail == v;
    } else {
      assert pieces[1..][1..] == pieces[2..];
      assert tail == v + ['='] + Join(pieces[2..], '=');
    }
  }

  /** Parsing fails exactly on the first line that holds no `=`. */
  lemma {:induction false} ParseAllOutcome(lines: seq<string>)
    ensures ParseAll(lines).Success? <==> forall i :: 0 <= i < |lines| ==> ParseLine(lines[i]).Some?
    ensures ParseAll(lines).Failure? ==>
      && ParseAll(lines).error.MissingSeparator?
      && var j := ParseAll(lines).error.line;
      && j < |lines| && ParseLine(lines[j]).None?
      && forall i :: 0 <= i < j ==> ParseLine(lines[i]).Some?
  {
    if lines != [] {
      var init := lines[..|lines| - 1];
      ParseAllOutcome(init);
      assert forall i :: 0 <= i < |init| ==> lines[i] == init[i];
    }
  }

  /** The dictionary that assigning the entries in order builds. */
  function Assign(entries: seq<Entry>): map<string, string>
  {
    if entries == [] then map[]
    else
      var e := entries[|entries| - 1];
      Assign(entries[..|entries| - 1])[e.key := e.val]
  }

  /** A file whose every line parses gives the assignment of its entries. */
  lemma {:induction false} ParseAllAssign(lines: seq<string>, entries: seq<Entry>)
    requires |entries| == |lines|
    requires forall i :: 0 <= i < |lines| ==> ParseLine(lines[i]) == Some(entries[i])
    ensures ParseAll(lines) == Success(Assign(entries))
  {
    if lines != [] {
      var last := |lines| - 1;
      ParseAllAssign(lines[..last], entries[..last]);
    }
  }

  /** Assigning entries in order gives a map whose keys are exactly the entries' keys. */
  lemma {:induction false} AssignKeys(entries: seq<Entry>)
    ensures forall k :: k in Assign(entries) <==> exists i :: 0 <= i < |entries| && entries[i].key == k
  {
    if entries != [] {
      var last := |entries| - 1;
      var init := entries[..last];
      AssignKeys(init);
      var e := entries[last];
      assert Assign(entries) == Assign(init)[e.key := e.val];
      forall k | k in Assign(entries)
        ensures exists i :: 0 <= i < |entries| && entries[i].key == k
      {
        if k != e.key {
          var i :| 0 <= i < |init| && init[i].key == k;
          assert entries[i] == init[i];
        }
      }
      forall i | 0 <= i < |entries|
        ensures entries[i].key in Assign(entries)
      {
        if i < last {
          assert entries[i] == init[i];
        }
      }
    }
  }

  /** A key carries the value of the last entry that has it. */
  lemma {:induction false} AssignLastWins(entries: seq<Entry>)
    ensures forall i :: 0 <= i < |entries| && (forall j :: i < j < |entries| ==> entries[j].key != entries[i].key) ==>
      entries[i].key in Assign(entries) && Assign(entries)[entries[i].key] == entries[i].val
  {
    if entries != [] {
      var last := |entries| - 1;
      var init := entries[..last];
      AssignLastWins(init);
      var e := entries[last];
      assert Assign(entries) == Assign(init)[e.key := e.val];
      forall i | 0 <= i < |entries| && (forall j :: i < j < |entries| ==> entries[j].key != entries[i].key)
        ensures entries[i].key in Assign(entries) && Assign(entries)[entries[i].key] == entries[i].val
      {
        if i < last {
          assert entries[i] == init[i];
          forall j | i < j < |init|
            ensures init[j].key != init[i].key
          {
            assert entries[j] == init[j];
          }
        }
      }
    }
  }

  /**
   * `read_bat_state` fails with `FileNotFound` exactly when the file cannot
   * be opened, and otherwise with the first line that holds no `=`.
   */
  lemma ParseUeventOutcome(file: Option<seq<string>>, now: string)
    ensures ParseUevent(file, now) == Failure(FileNotFound) <==> file.None?
    ensures file.Some? ==>
      (ParseUevent(file, now).Success? <==> forall i :: 0 <= i < |file.value| ==> ParseLine(file.value[i]).Some?)
    ensures file.Some? && ParseUevent(file, now).Failure? ==>
      && ParseUevent(file, now).error.MissingSeparator?
      && var j := ParseUevent(file, now).error.line;
      && j < |file.value| && ParseLine(file.value[j]).None?
      && forall i :: 0 <= i < j ==> ParseLine(file.value[i]).Some?
  {
    if file.Some? {
      ParseAllOutcome(file.value);
    }
  }

  /**
   * When every line parses, `read_bat_state` returns the assignment of the
   * lines' entries in file order, with `DATETIME` set last to the read time,
   * whatever the file said about `DATETIME`.
   */
  lemma ParseUeventAssign(lines: seq<string>, entries: seq<Entry>, now: string)
    requires |entries| == |lines|
    requires forall i :: 0 <= i < |lines| ==> ParseLine(lines[i]) == Some(entries[i])
    ensures ParseUevent(Some(lines), now) == Success(Assign(entries)["DATETIME" := now])
  {
    ParseAllAssign(lines, entries);
  }

  /**
   * A line as the kernel writes it, `POWER_SUPPLY_<KEY>=<VALUE>\n`, parses
   * to the key without its prefix and the value without its newline.
   */
  lemma KernelLine(k: string, v: string)
    requires '=' !in k && '=' !in v && '\n' !in k && '\n' !in v
    requires !Contains(k, Prefix) && !Contains(v, Prefix)
    ensures ParseLine(Prefix + k + "=" + v + "\n") == Some(Entry(k, v))
  {
    KernelLineNormal(k, v);
    SplitFree(v, '=');
    SplitConcat(k, v, '=');
    assert k + "=" + v == k + ['='] + v;
  }

  lemma KernelLineNormal(k: string, v: string)
    requires '\n' !in k && '\n' !in v
    requires !Contains(k, Prefix) && !Contains(v, Prefix)
    ensures Normalize(Prefix + k + "=" + v + "\n") == k + "=" + v
  {
    var body := k + "=" + v;
    assert body == k + ['='] + v;
    DropNewline(Prefix + body);
    assert Prefix + k + "=" + v + "\n" == Prefix + body + "\n";
    DropPrefix(body);
    NotContainedAcross(k, '=', v, Prefix);
    DeleteAllAbsent(body, Prefix);
  }

  lemma DropNewline(s: string)
    requires '\n' !in s
    ensures DeleteAll(s + "\n", "\n") == s
  {
    DeleteCharConcat(s, "\n", '\n');
    forall i | 0 <= i <= |s| - 1
      ensures !OccursAt(s, "\n", i)
    {
      assert s[i..i + 1] == [s[i]];
    }
    DeleteAllAbsent(s, "\n");
  }

  lemma DropPrefix(s: string)
    ensures DeleteAll(Prefix + s, Prefix) == DeleteAll(s, Prefix)
  {
    var y := Prefix + s;
    assert y[..|Prefix|] == Prefix && y[|Prefix|..] == s;
  }
}
