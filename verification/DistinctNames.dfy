/**
 When the names of an encoded response are distinct (src/response_encoder.cpp,
 `encode_response`): always, but for a Content-Encoding that the handler set to
 nothing and the encoder then sets itself.
 */
module DistinctNames {
  import opened Text
  import opened Fields
  import opened FieldLines
  import opened ResponseHeads

  /** The names the encoder writes, in its order. */
  const OWN: seq<string> := [
    CONTENT_ENCODING, VARY, DATE, SERVER, CACHE_CONTROL, CONTENT_TYPE_OPTIONS, REFERRER_POLICY,
    CONTENT_SECURITY_POLICY, STRICT_TRANSPORT_SECURITY, CONTENT_LENGTH, CONNECTION]

  lemma OwnLengths()
    ensures |OWN| == 11
    ensures |OWN[0]| == 16 && |OWN[1]| == 4 && |OWN[2]| == 4 && |OWN[3]| == 6 && |OWN[4]| == 13 && |OWN[5]| == 22
    ensures |OWN[6]| == 15 && |OWN[7]| == 23 && |OWN[8]| == 25 && |OWN[9]| == 14 && |OWN[10]| == 10
  {}

  lemma OwnNamesDiffer(j: nat, k: nat)
    requires j < k < |OWN|
    ensures !EqualsIgnoreCase(OWN[j], OWN[k])
  {
    OwnLengths();
    if k == 2 && j == 1 {
      assert VARY[0] == 'V' && DATE[0] == 'D';
    }
  }

  /** The first `k` of the encoder's own names were considered behind the handler's fields. */
  ghost predicate Staged(kept: seq<Field>, fs: seq<Field>, k: nat)
    requires k <= |OWN|
  {
    && Distinct(fs) && kept <= fs
    && forall i :: |kept| <= i < |fs| ==> exists j :: 0 <= j < k && fs[i].0 == OWN[j]
  }

  lemma Stage(kept: seq<Field>, fs: seq<Field>, k: nat, condition: bool, value: string)
    requires k < |OWN| && Staged(kept, fs, k) && (condition ==> Absent(kept, OWN[k]))
    ensures Staged(kept, fs + When(condition, OWN[k], value), k + 1)
  {
    var longer := fs + When(condition, OWN[k], value);
    forall i | |kept| <= i < |longer| ensures exists j :: 0 <= j < k + 1 && longer[i].0 == OWN[j] {
      if i < |fs| {
        assert longer[i] == fs[i];
        var j :| 0 <= j < k && fs[i].0 == OWN[j];
        assert longer[i].0 == OWN[j];
      } else {
        assert longer[i].0 == OWN[k];
      }
    }
    if condition {
      forall i | 0 <= i < |fs| ensures !EqualsIgnoreCase(longer[i].0, OWN[k]) {
        assert longer[i] == fs[i];
        if i < |kept| {
          assert fs[i] == kept[i];
        } else {
          var j :| 0 <= j < k && fs[i].0 == OWN[j];
          OwnNamesDiffer(j, k);
        }
      }
    }
  }

  // -------------------------------------------------------------- the handler's fields

  lemma {:induction false} KeptFrom(fs: seq<Field>, varies: bool, f: Field)
    ensures f in KeptFields(fs, varies) <==> f in fs && KeptField(f, varies) == [f]
  {
    if fs != [] {
      KeptFrom(fs[1..], varies, f);
      assert fs == [fs[0]] + fs[1..];
    }
  }

  lemma {:induction false} KeptDistinct(fs: seq<Field>, varies: bool)
    requires Distinct(fs)
    ensures Distinct(KeptFields(fs, varies))
  {
    if fs != [] {
      var (first, rest) := (KeptField(fs[0], varies), KeptFields(fs[1..], varies));
      KeptDistinct(fs[1..], varies);
      forall j | 0 <= j < |rest| ensures !EqualsIgnoreCase(fs[0].0, rest[j].0) {
        KeptFrom(fs[1..], varies, rest[j]);
        var k :| 0 <= k < |fs[1..]| && fs[1..][k] == rest[j];
        assert fs[k + 1] == rest[j];
      }
    }
  }

  /** What a table lacks its kept fields lack. */
  lemma KeptLacks(fs: seq<Field>, varies: bool, name: string)
    requires Absent(fs, name)
    ensures Absent(KeptFields(fs, varies), name)
  {
    var kept := KeptFields(fs, varies);
    forall i | 0 <= i < |kept| ensures !EqualsIgnoreCase(kept[i].0, name) {
      KeptFrom(fs, varies, kept[i]);
    }
  }

  lemma KeptDropped(fs: seq<Field>, varies: bool, name: string)
    requires forall f: Field :: EqualsIgnoreCase(f.0, name) ==> KeptField(f, varies) == []
    ensures Absent(KeptFields(fs, varies), name)
  {
    var kept := KeptFields(fs, varies);
    forall i | 0 <= i < |kept| ensures !EqualsIgnoreCase(kept[i].0, name) {
      KeptFrom(fs, varies, kept[i]);
    }
  }

  lemma FramingDropped(varies: bool)
    ensures forall f: Field :: EqualsIgnoreCase(f.0, CONTENT_LENGTH) ==> KeptField(f, varies) == []
    ensures forall f: Field :: EqualsIgnoreCase(f.0, CONNECTION) ==> KeptField(f, varies) == []
    ensures varies ==> forall f: Field :: EqualsIgnoreCase(f.0, VARY) ==> KeptField(f, varies) == []
  {}

  // ------------------------------------------------------------------ the theorem

  /** The body is compressed although the handler set a Content-Encoding. */
  predicate EncodingIsDoubled(r: Response, w: World) {
    Compressed(r, w) && FindHeader(r.headers, CONTENT_ENCODING).Some?
  }

  function Kept(r: Response, w: World): seq<Field> { KeptFields(r.headers, Varies(r, w)) }

  lemma NegotiatedStaged(r: Response, w: World)
    requires ResponseOk(r) && !EncodingIsDoubled(r, w)
    ensures Staged(Kept(r, w), NegotiatedFields(r, w), 2)
  {
    var kept := Kept(r, w);
    KeptDistinct(r.headers, Varies(r, w));
    FramingDropped(Varies(r, w));
    if Compressed(r, w) { KeptLacks(r.headers, Varies(r, w), CONTENT_ENCODING); }
    Stage(kept, kept, 0, Compressed(r, w), "gzip");
    if Varies(r, w) { KeptDropped(r.headers, true, VARY); }
    Stage(kept, kept + When(Compressed(r, w), CONTENT_ENCODING, "gzip"), 1, Varies(r, w),
          MergedVary(ValueOr(FindHeader(r.headers, VARY), "")));
  }

  lemma StageDefault(r: Response, w: World, fs: seq<Field>, k: nat, condition: bool, value: string)
    requires k < |OWN| && Staged(Kept(r, w), fs, k) && (condition ==> Lacks(r, OWN[k]))
    ensures Staged(Kept(r, w), fs + When(condition, OWN[k], value), k + 1)
  {
    if condition { KeptLacks(r.headers, Varies(r, w), OWN[k]); }
    Stage(Kept(r, w), fs, k, condition, value);
  }

  /** Date and Server. */
  function Identified(r: Response, o: Options, w: World): seq<Field> {
    NegotiatedFields(r, w)
    + When(Lacks(r, DATE), DATE, w.date)
    + When(o.server != "" && !HasControlCharacter(o.server) && Lacks(r, SERVER), SERVER, o.server)
  }

  lemma IdentifiedStaged(r: Response, o: Options, w: World)
    requires Staged(Kept(r, w), NegotiatedFields(r, w), 2)
    ensures Staged(Kept(r, w), Identified(r, o, w), 4)
  {
    var fs := NegotiatedFields(r, w);
    StageDefault(r, w, fs, 2, Lacks(r, DATE), w.date);
    fs := fs + When(Lacks(r, DATE), DATE, w.date);
    StageDefault(r, w, fs, 3, o.server != "" && !HasControlCharacter(o.server) && Lacks(r, SERVER), o.server);
  }

  lemma DefaultedStaged(r: Response, o: Options, w: World)
    requires Staged(Kept(r, w), Identified(r, o, w), 4)
    ensures Staged(Kept(r, w), DefaultedFields(r, o, w), 7)
  {
    var fs := Identified(r, o, w);
    StageDefault(r, w, fs, 4, Lacks(r, CACHE_CONTROL), "no-store");
    fs := fs + When(Lacks(r, CACHE_CONTROL), CACHE_CONTROL, "no-store");
    StageDefault(r, w, fs, 5, Lacks(r, CONTENT_TYPE_OPTIONS), "nosniff");
    fs := fs + When(Lacks(r, CONTENT_TYPE_OPTIONS), CONTENT_TYPE_OPTIONS, "nosniff");
    StageDefault(r, w, fs, 6, Lacks(r, REFERRER_POLICY), "no-referrer");
  }

  lemma PlainStaged(r: Response, o: Options, w: World)
    requires Staged(Kept(r, w), DefaultedFields(r, o, w), 7)
    ensures Staged(Kept(r, w), PlainFields(r, o, w), 9)
  {
    var fs := DefaultedFields(r, o, w);
    var html := IsHtml(r) && Lacks(r, CONTENT_SECURITY_POLICY);
    StageDefault(r, w, fs, 7, html, HTML_POLICY);
    fs := fs + When(html, CONTENT_SECURITY_POLICY, HTML_POLICY);
    StageDefault(r, w, fs, 8, o.secure && o.strictTransportSecurity && Lacks(r, STRICT_TRANSPORT_SECURITY),
                 MAX_AGE + Numeral(o.hstsMaxAge));
  }

  lemma EmittedStaged(r: Response, o: Options, w: World)
    requires Staged(Kept(r, w), PlainFields(r, o, w), 9)
    ensures Distinct(EmittedFields(r, o, w))
  {
    var kept, fs := Kept(r, w), PlainFields(r, o, w);
    var framed := !r.streaming && !IsBodiless(r);
    var length := When(framed, CONTENT_LENGTH, Numeral(|BodyOf(r, w)|));
    var open := if !r.streaming && o.keepAlive then KEEP_ALIVE else CLOSE;
    FramingDropped(Varies(r, w));
    KeptDropped(r.headers, Varies(r, w), CONTENT_LENGTH);
    KeptDropped(r.headers, Varies(r, w), CONNECTION);
    Stage(kept, fs, 9, framed, Numeral(|BodyOf(r, w)|));
    Stage(kept, fs + length, 10, true, open);
    FieldsJoin(fs, length, [(CONNECTION, open)]);
  }

  /** The doubled field is among those kept, in front of the encoder's own. */
  lemma DoubledIsNotDistinct(r: Response, o: Options, w: World)
    requires EncodingIsDoubled(r, w)
    ensures !Distinct(EmittedFields(r, o, w))
  {
    var f := EncodingKept(r, w);
    FieldAtFront(r, o, w);
    FrontClash(Kept(r, w), (CONTENT_ENCODING, "gzip"), EmittedFields(r, o, w), f);
  }

  lemma EncodingKept(r: Response, w: World) returns (f: Field)
    requires EncodingIsDoubled(r, w)
    ensures f in Kept(r, w) && EqualsIgnoreCase(f.0, CONTENT_ENCODING)
  {
    var i :| 0 <= i < |r.headers| && EqualsIgnoreCase(r.headers[i].0, CONTENT_ENCODING);
    f := r.headers[i];
    OwnLengths();
    assert |f.0| == 16;
    KeptFrom(r.headers, Varies(r, w), f);
  }

  lemma FrontClash(front: seq<Field>, next: Field, all: seq<Field>, f: Field)
    requires front + [next] <= all && f in front && EqualsIgnoreCase(f.0, next.0)
    ensures !Distinct(all)
  {
    var j :| 0 <= j < |front| && front[j] == f;
    assert all[j] == (front + [next])[j] && all[|front|] == (front + [next])[|front|];
  }

  lemma FieldAtFront(r: Response, o: Options, w: World)
    requires Compressed(r, w)
    ensures Kept(r, w) + [(CONTENT_ENCODING, "gzip")] <= EmittedFields(r, o, w)
  {
    assert NegotiatedFields(r, w)[..|Kept(r, w)| + 1] == Kept(r, w) + [(CONTENT_ENCODING, "gzip")];
    assert NegotiatedFields(r, w) <= DefaultedFields(r, o, w) <= PlainFields(r, o, w) <= EmittedFields(r, o, w);
  }

  /** The emitted names are distinct, whatever their case, exactly when the encoder does not compress a body for which the
      handler set a Content-Encoding; it does so only when that one is empty. */
  lemma NamesAreDistinct(r: Response, o: Options, w: World)
    requires ResponseOk(r)
    ensures Distinct(EmittedFields(r, o, w)) <==> !EncodingIsDoubled(r, w)
    ensures EncodingIsDoubled(r, w) ==> FindHeader(r.headers, CONTENT_ENCODING) == Some("")
  {
    if EncodingIsDoubled(r, w) {
      DoubledIsNotDistinct(r, o, w);
    } else {
      NegotiatedStaged(r, w);
      IdentifiedStaged(r, o, w);
      DefaultedStaged(r, o, w);
      PlainStaged(r, o, w);
      EmittedStaged(r, o, w);
    }
  }

  /** It does happen: an empty Content-Encoding on a body that is worth compressing. */
  lemma EmptyEncodingIsDoubled(o: Options)
    ensures var r := Response(200, "OK", [(CONTENT_ENCODING, "")], seq(2000, _ => 'x'), false);
            var w := World(true, Some("z"), "");
            ResponseOk(r) && !Distinct(EmittedFields(r, o, w))
  {
    var r := Response(200, "OK", [(CONTENT_ENCODING, "")], seq(2000, _ => 'x'), false);
    var w := World(true, Some("z"), "");
    assert IsToken(CONTENT_ENCODING);
    assert EqualsIgnoreCase(CONTENT_ENCODING, CONTENT_ENCODING);
    assert FindHeader(r.headers, CONTENT_ENCODING) == Some("");
    NamesAreDistinct(r, o, w);
  }
}
