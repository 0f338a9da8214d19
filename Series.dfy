/**
 * Reading the log back: the battery identifiers found in the database
 * (`get_uniq_batID`, batmeter.py:90-99), the records of one battery
 * (`get_uevents_by_batID`, batmeter.py:101-111) and the choice of the
 * identifiers to plot from the `--battery` names (batmeter.py:161-165).
 *
 * An identifier is `NAME-MANUFACTURER-MODEL_NAME-SERIAL_NUMBER`. The lookup
 * splits it on `-` again, which works only while no field holds a `-`.
 */
module Series {
  import opened Wrappers
  import opened Text
  import opened Seqs
  import opened DeviceReader

  /** The four fields of a reading that name a battery. */
  datatype IdFields = IdFields(name: string, manufacturer: string, model: string, serial: string)

  function Fields(f: IdFields): seq<string>
  {
    [f.name, f.manufacturer, f.model, f.serial]
  }

  /** `"{}-{}-{}-{}".format(name, manufacturer, model, serial)`. */
  function FormatId(f: IdFields): string
  {
    Join(Fields(f), '-')
  }

  /** No field holds the separator. */
  predicate DashFree(f: IdFields)
  {
    '-' !in f.name && '-' !in f.manufacturer && '-' !in f.model && '-' !in f.serial
  }

  /** Python's `ValueError` from unpacking a split into four names: how many pieces there were. */
  datatype ValueError = ValueError(pieces: nat)

  /**
   * The four fields of a reading, looked up in the order `format` evaluates
   * its arguments; the first missing key raises `KeyError`.
   */
  function IdFieldsOf(u: Uevent): (r: Result<IdFields, KeyError>)
    ensures r.Success? <==>
      "NAME" in u && "MANUFACTURER" in u && "MODEL_NAME" in u && "SERIAL_NUMBER" in u
    ensures r.Success? ==>
      r.value.name == u["NAME"] && r.value.manufacturer == u["MANUFACTURER"] &&
      r.value.model == u["MODEL_NAME"] && r.value.serial == u["SERIAL_NUMBER"]
    ensures r.Failure? ==> r.error.key !in u
  {
    if "NAME" !in u then Failure(KeyError("NAME"))
    else if "MANUFACTURER" !in u then Failure(KeyError("MANUFACTURER"))
    else if "MODEL_NAME" !in u then Failure(KeyError("MODEL_NAME"))
    else if "SERIAL_NUMBER" !in u then Failure(KeyError("SERIAL_NUMBER"))
    else Success(IdFields(u["NAME"], u["MANUFACTURER"], u["MODEL_NAME"], u["SERIAL_NUMBER"]))
  }

  /** The identifier `get_uniq_batID` builds for one reading. */
  function BatId(u: Uevent): Result<string, KeyError>
  {
    match IdFieldsOf(u)
    case Failure(e) => Failure(e)
    case Success(f) => Success(FormatId(f))
  }

  /** The set `get_uniq_batID` collects, or the `KeyError` of the first reading that lacks a field. */
  function UniqIds(events: seq<Uevent>): Result<set<string>, KeyError>
  {
    if events == [] then Success({})
    else
      match UniqIds(events[..|events| - 1])
      case Failure(e) => Failure(e)
      case Success(ids) =>
        match BatId(events[|events| - 1])
        case Failure(e) => Failure(e)
        case Success(id) => Success(ids + {id})
  }

  predicate Distinct(s: seq<string>)
  {
    forall i, j :: 0 <= i < j < |s| ==> s[i] != s[j]
  }

  /**
   * `get_uniq_batID`: the identifiers of the readings, each once, in no
   * particular order (the order of `list(set)`).
   */
  method GetUniqBatIds(events: seq<Uevent>) returns (r: Result<seq<string>, KeyError>)
    ensures UniqIds(events).Failure? ==> r == Failure(UniqIds(events).error)
    ensures UniqIds(events).Success? ==>
      && r.Success?
      && Distinct(r.value)
      && |r.value| == |UniqIds(events).value|
      && forall id :: id in r.value <==> id in UniqIds(events).value
  {
    var uniq: set<string> := {};
    var i := 0;
    while i < |events|
      invariant i <= |events|
      invariant UniqIds(events[..i]) == Success(uniq)
    {
      assert events[..i + 1][..i] == events[..i];
      var id := BatId(events[i]);
      if id.Failure? {
        UniqIdsFailurePersists(events, i + 1);
        return Failure(id.error);
      }
      uniq := uniq + {id.value};
      i := i + 1;
    }
    assert events[..|events|] == events;
    var ids: seq<string> := [];
    var rest := uniq;
    while rest != {}
      invariant rest <= uniq
      invariant forall id :: id in ids <==> id in uniq && id !in rest
      invariant Distinct(ids)
      invariant |ids| + |rest| == |uniq|
      decreases |rest|
    {
      var id :| id in rest;
      ids := ids + [id];
      rest := rest - {id};
    }
    return Success(ids);
  }

  /** Once a reading lacks a field, the readings after it change nothing. */
  lemma {:induction false} UniqIdsFailurePersists(events: seq<Uevent>, k: nat)
    requires k <= |events| && UniqIds(events[..k]).Failure?
    ensures UniqIds(events) == UniqIds(events[..k])
    decreases |events|
  {
    if k < |events| {
      var init := events[..|events| - 1];
      assert init[..k] == events[..k];
      UniqIdsFailurePersists(init, k);
    } else {
      assert events[..k] == events;
    }
  }

  /** `get_uniq_batID` succeeds exactly when every reading has the four fields. */
  lemma {:induction false} UniqIdsSucceeds(events: seq<Uevent>)
    ensures UniqIds(events).Success? <==> forall i :: 0 <= i < |events| ==> BatId(events[i]).Success?
  {
    if events != [] {
      var last := |events| - 1;
      var init := events[..last];
      UniqIdsSucceeds(init);
      assert forall i :: 0 <= i < last ==> events[i] == init[i];
    }
  }

  /** When it succeeds, `get_uniq_batID` collects exactly the identifiers of the readings. */
  lemma {:induction false} UniqIdsMembers(events: seq<Uevent>)
    requires UniqIds(events).Success?
    ensures forall id ::
      id in UniqIds(events).value <==> exists i :: 0 <= i < |events| && BatId(events[i]) == Success(id)
  {
    if events != [] {
      var last := |events| - 1;
      var init := events[..last];
      UniqIdsMembers(init);
      forall id | id in UniqIds(events).value
        ensures exists i :: 0 <= i < |events| && BatId(events[i]) == Success(id)
      {
        if id != BatId(events[last]).value {
          var i :| 0 <= i < |init| && BatId(init[i]) == Success(id);
          assert BatId(events[i]) == Success(id);
        }
      }
      forall id, i | 0 <= i < |events| && BatId(events[i]) == Success(id)
        ensures id in UniqIds(events).value
      {
        if i < last {
          assert BatId(init[i]) == Success(id);
        }
      }
    }
  }

  /** When it fails, `get_uniq_batID` raises the `KeyError` of the first reading that lacks a field. */
  lemma {:induction false} UniqIdsFirstFailure(events: seq<Uevent>)
    requires UniqIds(events).Failure?
    ensures exists i :: (&& 0 <= i < |events|
                         && BatId(events[i]) == Failure(UniqIds(events).error)
                         && forall j :: 0 <= j < i ==> BatId(events[j]).Success?)
  {
    var last := |events| - 1;
    var init := events[..last];
    if UniqIds(init).Failure? {
      UniqIdsFirstFailure(init);
      var i :| && 0 <= i < |init|
               && BatId(init[i]) == Failure(UniqIds(init).error)
               && forall j :: 0 <= j < i ==> BatId(init[j]).Success?;
      assert BatId(events[i]) == Failure(UniqIds(events).error);
      assert forall j :: 0 <= j < i ==> events[j] == init[j];
    } else {
      UniqIdsSucceeds(init);
      assert forall j :: 0 <= j < last ==> events[j] == init[j];
      assert BatId(events[last]) == Failure(UniqIds(events).error);
    }
  }

  /** The identifier is the first three fields, each followed by a dash, then the serial number. */
  lemma FormatIdLayout(f: IdFields)
    ensures FormatId(f) == f.name + ['-'] + f.manufacturer + ['-'] + f.model + ['-'] + f.serial
  {
    var tail := f.model + ['-'] + f.serial;
    var mid := f.manufacturer + ['-'] + tail;
    assert Join([f.serial], '-') == f.serial;
    assert [f.model, f.serial][1..] == [f.serial];
    assert Join([f.model, f.serial], '-') == tail;
    assert [f.manufacturer, f.model, f.serial][1..] == [f.model, f.serial];
    assert Join([f.manufacturer, f.model, f.serial], '-') == mid;
    assert Fields(f)[1..] == [f.manufacturer, f.model, f.serial];
    assert FormatId(f) == f.name + ['-'] + mid;
  }

  /**
   * Two readings of one battery before and after a replacement of its pack
   * give two identifiers, whatever the fields hold.
   */
  lemma NewSerialNewId(u: Uevent, serial: string)
    requires IdFieldsOf(u).Success? && serial != u["SERIAL_NUMBER"]
    ensures UniqIds([u, u["SERIAL_NUMBER" := serial]]).Success?
    ensures |UniqIds([u, u["SERIAL_NUMBER" := serial]]).value| == 2
  {
    var v := u["SERIAL_NUMBER" := serial];
    var f := IdFieldsOf(u).value;
    var g := IdFields(f.name, f.manufacturer, f.model, serial);
    assert IdFieldsOf(v) == Success(g);
    var head := f.name + ['-'] + f.manufacturer + ['-'] + f.model + ['-'];
    FormatIdLayout(f);
    FormatIdLayout(g);
    assert FormatId(f) == head + f.serial && FormatId(g) == head + serial;
    assert FormatId(f)[|head|..] == f.serial && FormatId(g)[|head|..] == serial;
    var one, two := [u], [u, v];
    assert one[..|one| - 1] == [] && one[|one| - 1] == u;
    assert UniqIds(one[..|one| - 1]) == Success({});
    assert two[..|two| - 1] == one && two[|two| - 1] == v;
    assert BatId(u) == Success(FormatId(f));
    assert UniqIds(one).value == {FormatId(f)};
    assert BatId(v) == Success(FormatId(g));
    assert UniqIds(two).value == {FormatId(f), FormatId(g)};
  }

  /** Splitting the identifier of dash-free fields gives the fields back. */
  lemma SplitFormatId(f: IdFields)
    requires DashFree(f)
    ensures Split(FormatId(f), '-') == Fields(f)
  {
    JoinSplit(Fields(f), '-');
  }

  /** Dash-free fields are determined by their identifier. */
  lemma FormatIdInjective(f: IdFields, g: IdFields)
    requires DashFree(f) && DashFree(g)
    ensures FormatId(f) == FormatId(g) <==> f == g
  {
    SplitFormatId(f);
    SplitFormatId(g);
  }

  /** The identifier holds three dashes more than its fields together. */
  lemma FormatIdDashes(f: IdFields)
    ensures Count(FormatId(f), '-') ==
      3 + Count(f.name, '-') + Count(f.manufacturer, '-') + Count(f.model, '-') + Count(f.serial, '-')
  {
    var tail := f.model + ['-'] + f.serial;
    var mid := f.manufacturer + ['-'] + tail;
    FormatIdLayout(f);
    assert FormatId(f) == f.name + ['-'] + mid;
    assert Count(['-'], '-') == 1;
    CountConcat(f.model + ['-'], f.serial, '-');
    CountConcat(f.model, ['-'], '-');
    CountConcat(f.manufacturer + ['-'], tail, '-');
    CountConcat(f.manufacturer, ['-'], '-');
    CountConcat(f.name + ['-'], mid, '-');
    CountConcat(f.name, ['-'], '-');
  }

  /**
   * `name, manu, model, serial = batID.split("-")`: four pieces, else
   * `ValueError` with the number of pieces.
   */
  function SplitId(id: string): (r: Result<IdFields, ValueError>)
    ensures r.Success? <==> Count(id, '-') == 3
    ensures r.Failure? ==> r.error.pieces == Count(id, '-') + 1
  {
    var ps := Split(id, '-');
    if |ps| != 4 then Failure(ValueError(|ps|))
    else Success(IdFields(ps[0], ps[1], ps[2], ps[3]))
  }

  /** A successful split gives dash-free fields whose identifier is the one split. */
  lemma SplitIdFormat(id: string)
    requires SplitId(id).Success?
    ensures DashFree(SplitId(id).value) && FormatId(SplitId(id).value) == id
  {
    var ps := Split(id, '-');
    SplitPiecesFree(id, '-');
    SplitJoin(id, '-');
    assert Fields(SplitId(id).value) == ps;
  }

  /** Dash-free fields survive formatting and splitting. */
  lemma FormatIdSplit(f: IdFields)
    requires DashFree(f)
    ensures SplitId(FormatId(f)) == Success(f)
  {
    SplitFormatId(f);
  }

  /**
   * The TinyDB query of `get_uevents_by_batID`: a record matches when it
   * has the four keys with these values (a record without a key does not
   * match).
   */
  predicate Matches(u: Uevent, f: IdFields)
  {
    && "NAME" in u && u["NAME"] == f.name
    && "MANUFACTURER" in u && u["MANUFACTURER"] == f.manufacturer
    && "MODEL_NAME" in u && u["MODEL_NAME"] == f.model
    && "SERIAL_NUMBER" in u && u["SERIAL_NUMBER"] == f.serial
  }

  /** `get_uevents_by_batID` as written: split the identifier, then search, in insertion order. */
  function GetUeventsByBatId(records: seq<Uevent>, id: string): Result<seq<Uevent>, ValueError>
  {
    match SplitId(id)
    case Failure(e) => Failure(e)
    case Success(f) => Success(Filter(records, u => Matches(u, f)))
  }

  /**
   * The lookup fails exactly on an identifier without three dashes, and
   * otherwise returns, in their order, the records whose four fields are
   * the pieces of the identifier.
   */
  lemma GetUeventsByBatIdSpec(records: seq<Uevent>, id: string)
    ensures GetUeventsByBatId(records, id).Failure? <==> Count(id, '-') != 3
    ensures GetUeventsByBatId(records, id).Success? ==>
      && |GetUeventsByBatId(records, id).value| <= |records|
      && forall u :: u in GetUeventsByBatId(records, id).value <==> u in records && Matches(u, SplitId(id).value)
  {
    if SplitId(id).Success? {
      var f := SplitId(id).value;
      FilterMembers(records, u => Matches(u, f));
    }
  }

  /**
   * The lookup keeps storage order: over records stored in two stretches it
   * returns the matches of the first stretch, then those of the second.
   */
  lemma GetUeventsByBatIdOrder(first: seq<Uevent>, second: seq<Uevent>, id: string)
    requires Count(id, '-') == 3
    ensures GetUeventsByBatId(first + second, id).Success?
    ensures GetUeventsByBatId(first + second, id).value ==
      GetUeventsByBatId(first, id).value + GetUeventsByBatId(second, id).value
  {
    var f := SplitId(id).value;
    FilterConcat(first, second, u => Matches(u, f));
  }

  /** A record is found by its own identifier when no field of it holds a dash. */
  lemma RecordFoundByOwnId(records: seq<Uevent>, u: Uevent)
    requires u in records && IdFieldsOf(u).Success? && DashFree(IdFieldsOf(u).value)
    ensures GetUeventsByBatId(records, BatId(u).value).Success?
    ensures u in GetUeventsByBatId(records, BatId(u).value).value
  {
    var f := IdFieldsOf(u).value;
    FormatIdSplit(f);
    GetUeventsByBatIdSpec(records, FormatId(f));
  }

  /**
   * A dash in any field of a reading makes the lookup by that reading's
   * identifier raise `ValueError` instead of returning the reading.
   */
  lemma DashBreaksLookup(records: seq<Uevent>, u: Uevent)
    requires IdFieldsOf(u).Success? && !DashFree(IdFieldsOf(u).value)
    ensures GetUeventsByBatId(records, BatId(u).value).Failure?
    ensures GetUeventsByBatId(records, BatId(u).value).error.pieces > 4
  {
    var f := IdFieldsOf(u).value;
    FormatIdDashes(f);
    CountZero(f.name, '-');
    CountZero(f.manufacturer, '-');
    CountZero(f.model, '-');
    CountZero(f.serial, '-');
  }

  /**
   * A reading whose model name holds one dash (`MODEL_NAME=01AV-430`, say)
   * and whose other fields hold none is not found by its own identifier:
   * the identifier splits into five pieces and the lookup raises.
   */
  lemma OneDashInModelNotFound(records: seq<Uevent>, u: Uevent, before: string, after: string)
    requires IdFieldsOf(u).Success?
    requires u["MODEL_NAME"] == before + ['-'] + after
    requires '-' !in before && '-' !in after
    requires '-' !in u["NAME"] && '-' !in u["MANUFACTURER"] && '-' !in u["SERIAL_NUMBER"]
    ensures GetUeventsByBatId(records, BatId(u).value) == Failure(ValueError(5))
  {
    var f := IdFieldsOf(u).value;
    FormatIdDashes(f);
    CountConcat(before + ['-'], after, '-');
    CountConcat(before, ['-'], '-');
    CountZero(before, '-');
    CountZero(after, '-');
    CountZero(f.name, '-');
    CountZero(f.manufacturer, '-');
    CountZero(f.serial, '-');
    assert Count(['-'], '-') == 1;
  }

  /** The lookup that finds each battery's records by comparing whole identifiers. */
  function RecordsOfBatId(records: seq<Uevent>, id: string): seq<Uevent>
  {
    Filter(records, u => BatId(u) == Success(id))
  }

  /** Every record with the four fields is found by its own identifier, whatever its fields hold. */
  lemma RecordsOfBatIdFindsOwn(records: seq<Uevent>, u: Uevent)
    requires u in records && BatId(u).Success?
    ensures u in RecordsOfBatId(records, BatId(u).value)
  {
    FilterMembers(records, v => BatId(v) == BatId(u));
  }

  /** On identifiers with three dashes the lookup as written agrees with the comparison of identifiers. */
  lemma LookupsAgree(records: seq<Uevent>, id: string)
    requires Count(id, '-') == 3
    ensures GetUeventsByBatId(records, id) == Success(RecordsOfBatId(records, id))
  {
    var f := SplitId(id).value;
    SplitIdFormat(id);
    forall u | u in records
      ensures Matches(u, f) == (BatId(u) == Success(id))
    {
      if IdFieldsOf(u).Success? {
        var g := IdFieldsOf(u).value;
        if FormatId(g) == id {
          FormatIdDashes(g);
          CountZero(g.name, '-');
          CountZero(g.manufacturer, '-');
          CountZero(g.model, '-');
          CountZero(g.serial, '-');
          FormatIdInjective(f, g);
        }
        if Matches(u, f) {
          assert g == f;
        }
      }
    }
    FilterAgree(records, u => Matches(u, f), u => BatId(u) == Success(id));
  }

  /** The entries of the `--battery` list that occur in `id`. */
  function MatchingEntries(id: string, allow: seq<string>): seq<string>
  {
    Filter(allow, b => Contains(id, b))
  }

  /** What the inner loop over the `--battery` list appends for one identifier. */
  function Copies(id: string, allow: seq<string>): seq<string>
  {
    if allow == [] then []
    else Copies(id, allow[..|allow| - 1]) + (if Contains(id, allow[|allow| - 1]) then [id] else [])
  }

  /** `iter_batIDs` after the nested loops of `main`. */
  function Selected(ids: seq<string>, allow: seq<string>): seq<string>
  {
    if ids == [] then []
    else Selected(ids[..|ids| - 1], allow) + Copies(ids[|ids| - 1], allow)
  }

  /**
   * The selection loops of `main`: for each identifier, and for each
   * `--battery` name it contains, append the identifier.
   */
  method SelectBatIds(ids: seq<string>, allow: seq<string>) returns (sel: seq<string>)
    ensures sel == Selected(ids, allow)
  {
    sel := [];
    var i := 0;
    while i < |ids|
      invariant i <= |ids|
      invariant sel == Selected(ids[..i], allow)
    {
      assert ids[..i + 1][..i] == ids[..i];
      var j := 0;
      while j < |allow|
        invariant j <= |allow|
        invariant sel == Selected(ids[..i], allow) + Copies(ids[i], allow[..j])
      {
        assert allow[..j + 1][..j] == allow[..j];
        if Contains(ids[i], allow[j]) {
          sel := sel + [ids[i]];
        }
        j := j + 1;
      }
      assert allow[..|allow|] == allow;
      i := i + 1;
    }
    assert ids[..|ids|] == ids;
  }

  /**
   * The identifiers `main` plots: those `get_uniq_batID` finds in the
   * database, each once per `--battery` name it contains.
   */
  method IdsToPlot(records: seq<Uevent>, allow: seq<string>) returns (r: Result<seq<string>, KeyError>)
    ensures UniqIds(records).Failure? ==> r == Failure(UniqIds(records).error)
    ensures UniqIds(records).Success? ==> r.Success? && forall x ::
      multiset(r.value)[x] == if x in UniqIds(records).value then |MatchingEntries(x, allow)| else 0
  {
    var ids := GetUniqBatIds(records);
    if ids.Failure? {
      return Failure(ids.error);
    }
    var sel := SelectBatIds(ids.value, allow);
    forall x
      ensures multiset(sel)[x] == if x in UniqIds(records).value then |MatchingEntries(x, allow)| else 0
    {
      SelectedCount(ids.value, allow, x);
    }
    return Success(sel);
  }

  /** For one identifier the inner loop appends it once per `--battery` name it contains, and nothing else. */
  lemma {:induction false} CopiesSpec(id: string, allow: seq<string>)
    ensures Copies(id, allow) == seq(|MatchingEntries(id, allow)|, _ => id)
  {
    if allow != [] {
      var init := allow[..|allow| - 1];
      CopiesSpec(id, init);
      var n := |MatchingEntries(id, init)|;
      assert seq(n, _ => id) + [id] == seq(n + 1, _ => id);
    }
  }

  /** An identifier is selected exactly when it was found and contains some `--battery` name. */
  lemma {:induction false} SelectedMembers(ids: seq<string>, allow: seq<string>)
    ensures forall x :: x in Selected(ids, allow) <==> x in ids && MatchingEntries(x, allow) != []
  {
    if ids != [] {
      var init, last := ids[..|ids| - 1], ids[|ids| - 1];
      SelectedMembers(init, allow);
      CopiesSpec(last, allow);
      assert ids == init + [last];
      if MatchingEntries(last, allow) != [] {
        assert Copies(last, allow)[0] == last;
      }
      forall y | y in Copies(last, allow)
        ensures y == last
      {
      }
    }
  }

  /**
   * Each of the distinct identifiers `get_uniq_batID` returns appears in the
   * selection once per `--battery` name it contains, so one that contains
   * two names is plotted twice.
   */
  lemma {:induction false} SelectedCount(ids: seq<string>, allow: seq<string>, x: string)
    requires Distinct(ids)
    ensures multiset(Selected(ids, allow))[x] == if x in ids then |MatchingEntries(x, allow)| else 0
  {
    if ids != [] {
      var init, last := ids[..|ids| - 1], ids[|ids| - 1];
      assert Distinct(init);
      SelectedCount(init, allow, x);
      CopiesCount(last, allow, x);
      assert multiset(Selected(ids, allow))[x] == multiset(Selected(init, allow))[x] + multiset(Copies(last, allow))[x];
      assert ids == init + [last];
      assert last !in init;
    }
  }

  /** How often `x` occurs among the copies appended for `id`. */
  lemma CopiesCount(id: string, allow: seq<string>, x: string)
    ensures multiset(Copies(id, allow))[x] == if x == id then |MatchingEntries(x, allow)| else 0
  {
    CopiesSpec(id, allow);
    SameCount(|MatchingEntries(id, allow)|, id, x);
  }

  /** A sequence of `n` copies of `id` holds `id` `n` times and nothing else. */
  lemma {:induction false} SameCount(n: nat, id: string, x: string)
    ensures multiset(seq(n, _ => id))[x] == if x == id then n else 0
  {
    if n > 0 {
      SameCount(n - 1, id, x);
      assert seq(n, _ => id) == seq(n - 1, _ => id) + [id];
    }
  }
}
