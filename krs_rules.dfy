/** Course-load (KRS) validation in the academic service: course-code
    normalisation, the credit (sks) total, the per-item checks run over the list in
    order, and the credit ceiling. */
module KrsRules {
  import opened Wrappers
  import opened Text
  import opened AcademicErrors
  import opened AcademicModels

  /** A `KrsItemInput` as it arrives: `courseName` may be null, `sks` is a GraphQL Int. */
  datatype KrsItemInput = KrsItemInput(courseCode: string, courseName: Option<string>, sks: int)

  /** The ceiling used when `MAX_SKS` is not configured. */
  const DefaultMaxSks: int := 24

  /** `normalizeCourseCode`: trim, then upper-case. */
  function NormalizeCourseCode(code: string): (r: string)
    ensures Trimmed(r)
    ensures forall i :: 0 <= i < |r| ==> !('a' <= r[i] <= 'z')
  {
    var trimmed := Trim(code);
    ToUpperKeepsTrimmed(trimmed);
    ToUpper(trimmed)
  }

  /** Normalising twice is normalising once: a stored code is already normal. */
  lemma NormalizeCourseCodeIdempotent(code: string)
    ensures NormalizeCourseCode(NormalizeCourseCode(code)) == NormalizeCourseCode(code)
  {
    var n := NormalizeCourseCode(code);
    assert Trim(n) == n;
    ToUpperIdempotent(Trim(code));
  }

  /** A leading blank never matters: the code is trimmed before anything else. */
  lemma {:induction false} LeadingBlankIgnored(code: string)
    ensures NormalizeCourseCode(" " + code) == NormalizeCourseCode(code)
  {
    assert (" " + code)[1..] == code;
    assert TrimStart(" " + code) == TrimStart(code);
  }

  /** Codes that differ only in a leading blank and letter case collide: for
      example, " cs101" and "CS101" both become "CS101". */
  lemma {:induction false} BlankAndCaseVariantsCollide(code: string)
    requires Trimmed(code)
    ensures NormalizeCourseCode(" " + code) == NormalizeCourseCode(ToUpper(code)) == ToUpper(code)
  {
    LeadingBlankIgnored(code);
    ToUpperKeepsTrimmed(code);
    ToUpperIdempotent(code);
  }

  /** The resolver's `items.map(...)` step for one item. */
  function NormalizeItem(it: KrsItemInput): KrsItem {
    KrsItem(
      NormalizeCourseCode(it.courseCode),
      match it.courseName case None => "" case Some(name) => name,
      it.sks)
  }

  function NormalizeItems(items: seq<KrsItemInput>): (r: seq<KrsItem>)
    ensures |r| == |items|
    ensures forall i :: 0 <= i < |items| ==> r[i] == NormalizeItem(items[i])
  {
    seq(|items|, i requires 0 <= i < |items| => NormalizeItem(items[i]))
  }

  /** `calcTotalSks`: the left fold adding each item's sks. */
  function SumSks(items: seq<KrsItem>): (total: int)
    ensures (forall i :: 0 <= i < |items| ==> items[i].sks > 0) ==> total >= |items|
    ensures (forall i :: 0 <= i < |items| ==> items[i].sks >= 0) ==>
              forall i :: 0 <= i < |items| ==> items[i].sks <= total
  {
    if items == [] then 0 else SumSks(items[..|items| - 1]) + items[|items| - 1].sks
  }

  /** The first failure the resolver's loop meets, checking each item in list
      order for an empty code, then a code already seen, then a non-positive sks. */
  function ScanItems(items: seq<KrsItem>, seen: set<string>): (r: Option<Failure>)
    ensures r.Some? ==> r.value.EmptyCourseCode? || r.value.DuplicateCourse? || r.value.InvalidSks?
    decreases |items|
  {
    if items == [] then None
    else
      var code := items[0].courseCode;
      if code == "" then Some(EmptyCourseCode)
      else if code in seen then Some(DuplicateCourse(code))
      else if items[0].sks <= 0 then Some(InvalidSks(code))
      else ScanItems(items[1..], seen + {code})
  }

  predicate DistinctCodes(items: seq<KrsItem>) {
    forall i, j :: 0 <= i < j < |items| ==> items[i].courseCode != items[j].courseCode
  }

  /** What the per-item loop demands of the whole list. */
  predicate ItemsAcceptable(items: seq<KrsItem>) {
    && DistinctCodes(items)
    && forall i :: 0 <= i < |items| ==> items[i].courseCode != "" && items[i].sks > 0
  }

  /** The scan, started with `seen`, finds nothing exactly when every item has a
      non-empty code and positive sks, the codes are distinct, and none is in `seen`. */
  lemma {:induction false} ScanFindsNothingExactly(items: seq<KrsItem>, seen: set<string>)
    ensures ScanItems(items, seen).None? <==>
              ItemsAcceptable(items) && forall i :: 0 <= i < |items| ==> items[i].courseCode !in seen
    decreases |items|
  {
    if items != [] {
      var code := items[0].courseCode;
      var rest := items[1..];
      ScanFindsNothingExactly(rest, seen + {code});
      if ScanItems(items, seen).None? {
        forall i, j | 0 <= i < j < |items| ensures items[i].courseCode != items[j].courseCode {
          if i > 0 {
            assert rest[i - 1] == items[i] && rest[j - 1] == items[j];
          } else {
            assert rest[j - 1] == items[j];
          }
        }
        forall i | 0 <= i < |items| ensures items[i].courseCode !in seen {
          if i > 0 { assert rest[i - 1] == items[i]; }
        }
      }
      if ItemsAcceptable(items) && forall i :: 0 <= i < |items| ==> items[i].courseCode !in seen {
        forall i | 0 <= i < |rest| ensures rest[i].courseCode !in seen + {code} {
          assert rest[i] == items[i + 1];
        }
        forall i, j | 0 <= i < j < |rest| ensures rest[i].courseCode != rest[j].courseCode {
          assert rest[i] == items[i + 1] && rest[j] == items[j + 1];
        }
      }
    }
  }

  /** The first `j` items pass all three checks of a scan started with `seen`:
      non-empty codes, none seen before or repeated among them, positive sks. */
  predicate CleanPrefix(items: seq<KrsItem>, seen: set<string>, j: int) {
    && 0 <= j <= |items|
    && (forall i :: 0 <= i < j ==>
          items[i].courseCode != "" && items[i].courseCode !in seen && items[i].sks > 0)
    && (forall i, k :: 0 <= i < k < j ==> items[i].courseCode != items[k].courseCode)
  }

  /** A clean head in front of a prefix that is clean for the scan's next `seen`
      makes the longer prefix clean. */
  lemma CleanPrefixGrows(items: seq<KrsItem>, seen: set<string>, j: int)
    requires |items| > 0
    requires items[0].courseCode != "" && items[0].courseCode !in seen && items[0].sks > 0
    requires CleanPrefix(items[1..], seen + {items[0].courseCode}, j)
    ensures CleanPrefix(items, seen, j + 1)
  {
    var rest := items[1..];
    forall i | 0 <= i < j + 1
      ensures items[i].courseCode != "" && items[i].courseCode !in seen && items[i].sks > 0
    {
      if i > 0 { assert items[i] == rest[i - 1]; }
    }
    forall i, k | 0 <= i < k < j + 1 ensures items[i].courseCode != items[k].courseCode {
      assert items[k] == rest[k - 1];
      if i > 0 { assert items[i] == rest[i - 1]; }
    }
  }

  /** A duplicate-code failure names the non-empty code of a real item that
      occurs earlier (or was already seen before the scan started), and every item
      before it passed all three checks. */
  lemma {:induction false} DuplicateIsNamedCorrectly(items: seq<KrsItem>, seen: set<string>, c: string)
    requires ScanItems(items, seen) == Some(DuplicateCourse(c))
    ensures c != ""
    ensures exists j :: && 0 <= j < |items| && items[j].courseCode == c
                        && (c in seen || exists i :: 0 <= i < j && items[i].courseCode == c)
                        && CleanPrefix(items, seen, j)
    decreases |items|
  {
    var code := items[0].courseCode;
    if code != "" && code !in seen && items[0].sks > 0 {
      var rest := items[1..];
      DuplicateIsNamedCorrectly(rest, seen + {code}, c);
      var j :| && 0 <= j < |rest| && rest[j].courseCode == c
               && (c in seen + {code} || exists i :: 0 <= i < j && rest[i].courseCode == c)
               && CleanPrefix(rest, seen + {code}, j);
      assert items[j + 1] == rest[j];
      CleanPrefixGrows(items, seen, j);
      if c !in seen {
        if c == code {
          assert items[0].courseCode == c;
        } else {
          var i :| 0 <= i < j && rest[i].courseCode == c;
          assert items[i + 1] == rest[i];
        }
      }
    } else {
      assert items[0].courseCode == c && CleanPrefix(items, seen, 0);
    }
  }

  /** An empty-code failure points at a real item with an empty normalised code,
      and every item before it passed all three checks. */
  lemma {:induction false} EmptyCodeIsFound(items: seq<KrsItem>, seen: set<string>)
    requires ScanItems(items, seen) == Some(EmptyCourseCode)
    ensures exists j :: 0 <= j < |items| && items[j].courseCode == "" && CleanPrefix(items, seen, j)
    decreases |items|
  {
    var code := items[0].courseCode;
    if code != "" {
      var rest := items[1..];
      EmptyCodeIsFound(rest, seen + {code});
      var j :| 0 <= j < |rest| && rest[j].courseCode == "" && CleanPrefix(rest, seen + {code}, j);
      assert items[j + 1] == rest[j];
      CleanPrefixGrows(items, seen, j);
    } else {
      assert items[0].courseCode == "" && CleanPrefix(items, seen, 0);
    }
  }

  /** An invalid-sks failure names the code of a real item that passed the empty
      and the duplicate checks (its code is non-empty, not seen and not repeated
      earlier) but whose sks is not positive; every item before it passed all
      three checks. */
  lemma {:induction false} InvalidSksIsNamedCorrectly(items: seq<KrsItem>, seen: set<string>, c: string)
    requires ScanItems(items, seen) == Some(InvalidSks(c))
    ensures c != "" && c !in seen
    ensures exists j :: && 0 <= j < |items| && items[j].courseCode == c && items[j].sks <= 0
                        && (forall i :: 0 <= i < j ==> items[i].courseCode != c)
                        && CleanPrefix(items, seen, j)
    decreases |items|
  {
    var code := items[0].courseCode;
    if code != "" && code !in seen && items[0].sks > 0 {
      var rest := items[1..];
      InvalidSksIsNamedCorrectly(rest, seen + {code}, c);
      var j :| && 0 <= j < |rest| && rest[j].courseCode == c && rest[j].sks <= 0
               && (forall i :: 0 <= i < j ==> rest[i].courseCode != c)
               && CleanPrefix(rest, seen + {code}, j);
      assert items[j + 1] == rest[j];
      CleanPrefixGrows(items, seen, j);
      forall i | 0 <= i < j + 1 ensures items[i].courseCode != c {
        if i > 0 { assert items[i] == rest[i - 1]; }
      }
    } else {
      assert items[0].courseCode == c && CleanPrefix(items, seen, 0);
    }
  }

  /** The resolver's `for (const it of normalized)` loop with its `seen` set. */
  method CheckItems(items: seq<KrsItem>) returns (failure: Option<Failure>)
    ensures failure == ScanItems(items, {})
  {
    var seen: set<string> := {};
    var i := 0;
    while i < |items|
      invariant 0 <= i <= |items|
      invariant ScanItems(items, {}) == ScanItems(items[i..], seen)
    {
      var it := items[i];
      assert items[i..][0] == it && items[i..][1..] == items[i + 1..];
      if it.courseCode == "" {
        return Some(EmptyCourseCode);
      }
      if it.courseCode in seen {
        return Some(DuplicateCourse(it.courseCode));
      }
      seen := seen + {it.courseCode};
      if it.sks <= 0 {
        return Some(InvalidSks(it.courseCode));
      }
      i := i + 1;
    }
    return None;
  }

  /** The validation `submitKrs` runs after the standing and tuition gates: a
      non-empty list, the per-item scan on the normalised items, then the ceiling.
      On success it yields the normalised items and their total. */
  function ValidateKrs(items: seq<KrsItemInput>, maxSks: int): (r: Result<(seq<KrsItem>, int), Failure>)
    ensures items == [] ==> r == Err(KrsEmpty)
    ensures r.Ok? ==> r.value.0 == NormalizeItems(items) && r.value.1 == SumSks(r.value.0)
    ensures r.Ok? ==> ItemsAcceptable(r.value.0) && 0 < |items| <= r.value.1 <= maxSks
    ensures items != [] && ScanItems(NormalizeItems(items), {}).Some? ==>
              r == Err(ScanItems(NormalizeItems(items), {}).value)
    ensures items != [] && ScanItems(NormalizeItems(items), {}).None?
              && SumSks(NormalizeItems(items)) > maxSks ==>
              r == Err(SksOverLimit(SumSks(NormalizeItems(items)), maxSks))
    ensures r.Err? && r.error.SksOverLimit? ==>
              r.error == SksOverLimit(SumSks(NormalizeItems(items)), maxSks) && r.error.total > maxSks
  {
    if items == [] then Err(KrsEmpty)
    else
      var normalized := NormalizeItems(items);
      match ScanItems(normalized, {})
      case Some(f) => Err(f)
      case None =>
        ScanFindsNothingExactly(normalized, {});
        var total := SumSks(normalized);
        if total > maxSks then Err(SksOverLimit(total, maxSks)) else Ok((normalized, total))
  }

  /** The resolver's validation steps as it runs them: the emptiness check, the
      item loop on the normalised list, then the sum against the ceiling. */
  method CheckKrs(items: seq<KrsItemInput>, maxSks: int) returns (r: Result<(seq<KrsItem>, int), Failure>)
    ensures r == ValidateKrs(items, maxSks)
  {
    if |items| == 0 {
      return Err(KrsEmpty);
    }
    var normalized := NormalizeItems(items);
    var failure := CheckItems(normalized);
    if failure.Some? {
      return Err(failure.value);
    }
    var total := SumSks(normalized);
    if total > maxSks {
      return Err(SksOverLimit(total, maxSks));
    }
    return Ok((normalized, total));
  }

  /** The validation rejects exactly the lists the documented rules reject. */
  lemma ValidateKrsAcceptsExactly(items: seq<KrsItemInput>, maxSks: int)
    ensures ValidateKrs(items, maxSks).Ok? <==>
              items != [] && ItemsAcceptable(NormalizeItems(items)) && SumSks(NormalizeItems(items)) <= maxSks
  {
    ScanFindsNothingExactly(NormalizeItems(items), {});
  }

  /** An item with more than 6 sks (7, say) passes every check of the resolver
      as long as the ceiling allows it; only the schema's `max: 6`, applied when
      the record is saved, refuses it. */
  lemma {:induction false} OverSixSksPassesResolver(code: string, name: Option<string>, sks: int, maxSks: int)
    requires NormalizeCourseCode(code) != "" && 6 < sks <= maxSks
    ensures ValidateKrs([KrsItemInput(code, name, sks)], maxSks).Ok?
    ensures !KrsItemSchemaOk(NormalizeItem(KrsItemInput(code, name, sks)))
  {
    var items := [KrsItemInput(code, name, sks)];
    var it := NormalizeItem(items[0]);
    assert it.courseCode != "" && it.sks == sks;
    assert NormalizeItems(items) == [it];
    assert [it][1..] == [];
    assert ScanItems([it], {}) == ScanItems([], {it.courseCode}) == None;
    assert SumSks([it]) == SumSks([]) + sks;
  }

}
