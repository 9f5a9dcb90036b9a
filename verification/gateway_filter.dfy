/** The gateway's `BookingStateFilter`: the filter names a client may send
    and their case-insensitive lookup. */
module GatewayFilter {
  import opened Common
  import opened Text
  import opened Seqs

  datatype BookingStateFilter = ALL | WAITING | APPROVED | REJECTED | CANCELED

  /** `name()`: the constant's identifier. */
  function Name(f: BookingStateFilter): string {
    match f
    case ALL => "ALL"
    case WAITING => "WAITING"
    case APPROVED => "APPROVED"
    case REJECTED => "REJECTED"
    case CANCELED => "CANCELED"
  }

  /** `values()`, in declaration order. */
  const Values: seq<BookingStateFilter> := [ALL, WAITING, APPROVED, REJECTED, CANCELED]

  lemma ValuesListsEveryConstant(f: BookingStateFilter)
    ensures f in Values
  {
  }

  /** `from`: the first constant whose name equals the argument ignoring case;
      a null argument matches nothing. */
  function From(s: Option<string>): (r: Option<BookingStateFilter>)
    ensures r.Some? ==> s.Some? && EqualsIgnoreCase(Name(r.value), s.value)
    ensures r.None? <==> s.None? || forall f :: !EqualsIgnoreCase(Name(f), s.value)
  {
    match s
    case None => None
    case Some(t) =>
      var r := First(Values, f => EqualsIgnoreCase(Name(f), t));
      if r.None? then
        forall f ensures !EqualsIgnoreCase(Name(f), t) {
          ValuesListsEveryConstant(f);
        }
        r
      else
        r
  }

  /** No two constants have names that differ only in case. */
  lemma NamesDistinctIgnoringCase(a: BookingStateFilter, b: BookingStateFilter)
    ensures EqualsIgnoreCase(Name(a), Name(b)) <==> a == b
  {
    if a != b {
      if |Name(a)| == |Name(b)| {
        assert !CharEqualsIgnoreCase(Name(a)[0], Name(b)[0]);
      }
    }
  }

  /** A string parses to a constant exactly when it names that constant up
      to case, so the lookup's answer does not depend on the order of `values()`. */
  lemma FromIsExact(s: string, f: BookingStateFilter)
    ensures From(Some(s)) == Some(f) <==> EqualsIgnoreCase(Name(f), s)
  {
    if EqualsIgnoreCase(Name(f), s) {
      var r := From(Some(s));
      assert r.Some?;
      EqualsIgnoreCaseIsLowerEquality(Name(r.value), s);
      EqualsIgnoreCaseIsLowerEquality(Name(f), s);
      EqualsIgnoreCaseIsLowerEquality(Name(r.value), Name(f));
      NamesDistinctIgnoringCase(r.value, f);
    }
  }

  lemma LowerIsEqualIgnoringCase(s: string)
    ensures EqualsIgnoreCase(s, Lower(s))
  {
    forall i | 0 <= i < |s| ensures CharEqualsIgnoreCase(s[i], Lower(s)[i]) {
      CharFoldsAgree(s[i], Lower(s)[i]);
    }
  }

  /** Every constant's name, as written or lower-cased, parses back to it. */
  lemma FromNameRoundTrip(f: BookingStateFilter)
    ensures From(Some(Name(f))) == Some(f)
    ensures From(Some(Lower(Name(f)))) == Some(f)
  {
    NamesDistinctIgnoringCase(f, f);
    FromIsExact(Name(f), f);
    LowerIsEqualIgnoringCase(Name(f));
    FromIsExact(Lower(Name(f)), f);
  }

  /** The time windows the server understands are not gateway constants. */
  lemma TimeWindowsDoNotParse()
    ensures From(Some("CURRENT")) == None
    ensures From(Some("PAST")) == None
    ensures From(Some("FUTURE")) == None
  {
    forall f ensures !EqualsIgnoreCase(Name(f), "CURRENT") {
      match f
      case WAITING =>
        assert Name(f)[0] == 'W' && "CURRENT"[0] == 'C';
        assert !CharEqualsIgnoreCase('W', 'C');
      case ALL => assert |Name(f)| == 3;
      case APPROVED => assert |Name(f)| == 8;
      case REJECTED => assert |Name(f)| == 8;
      case CANCELED => assert |Name(f)| == 8;
    }
    assert From(Some("CURRENT")) == None;
    forall f ensures !EqualsIgnoreCase(Name(f), "PAST") && !EqualsIgnoreCase(Name(f), "FUTURE") {
      assert |Name(f)| != 4 && |Name(f)| != 6;
    }
  }
}
