/** services/clusters/overrides.go: whether a branch keeps meeting what is mandatory for its image.

    The parameters are mandated when a branch is built, for the image it has then. Afterwards the
    wakeup reconciler may give it another image, of the same offering and major version. The one
    mandated value that depends on the image is the list of extensions of just these two. */
module BranchMandates {
  import opened Runs
  import opened BranchSpecs
  import opened Images

  const PRIVILEGED_EXTENSIONS := "xatautils.privileged_extensions"

  /** MandatoryPostgresParameters: fixed values, and the list of extensions for the image. */
  function MandatoryParameters(fixed: Params, extensions: Option<(string, string)> -> string): Mandates
  {
    image => fixed[PRIVILEGED_EXTENSIONS := extensions(ExtensionKey(image))]
  }

  /** The same parameters are mandatory for every image; their values may differ. */
  ghost predicate SameNames(mandates: Mandates) { forall i, j :: mandates(i).Keys == mandates(j).Keys }

  /** The values depend on the image only through what GetExtensions looks up. */
  ghost predicate ByExtensions(mandates: Mandates)
  {
    forall i, j :: ExtensionKey(i) == ExtensionKey(j) ==> mandates(i) == mandates(j)
  }

  lemma MandatoryParametersAreRegular(fixed: Params, extensions: Option<(string, string)> -> string)
    ensures SameNames(MandatoryParameters(fixed, extensions)) && ByExtensions(MandatoryParameters(fixed, extensions))
  {
  }

  /** The mandated value of each parameter. */
  lemma MandatoryParameter(fixed: Params, extensions: Option<(string, string)> -> string, image: string, name: string)
    ensures Lookup(MandatoryParameters(fixed, extensions)(image), name) ==
      if name == "xatautils.privileged_extensions" then Some(extensions(ExtensionKey(image))) else Lookup(fixed, name)
  {
  }

  // ----- the image last built and the current image

  /** The image of the branch when it was last built, by its creation or by an accepted update. */
  ghost function BuiltImage(h: nat -> Spec, events: seq<Event>, n: nat): string
    requires n <= |events|
  {
    if n == 0 then h(0).image
    else if events[n - 1].Updated? && Accepted(h(n - 1), events[n - 1].update) then h(n).image
    else BuiltImage(h, events, n - 1)
  }

  lemma OneEventKeepsMandates(b: Spec, seen: Spec, e: Event, mandates: Mandates, name: string)
    requires b.postgres.Some?
    ensures var after := Happen(b, seen, e, mandates);
      if e.Updated? && Accepted(b, e.update)
      then name in mandates(after.image) ==>
             name in after.postgres.value.params && after.postgres.value.params[name] == mandates(after.image)[name]
      else after.postgres == b.postgres
  {
  }

  lemma {:induction false} BuiltMandates(h: nat -> Spec, events: seq<Event>, mandates: Mandates, n: nat, name: string)
    requires IsHistory(h, events, mandates) && n <= |events|
    requires name in mandates(h(0).image) ==>
      Lookup(h(0).postgres.value.params, name) == Some(mandates(h(0).image)[name])
    ensures name in mandates(BuiltImage(h, events, n)) ==>
      Lookup(h(n).postgres.value.params, name) == Some(mandates(BuiltImage(h, events, n))[name])
  {
    if n > 0 {
      BuiltMandates(h, events, mandates, n - 1, name);
      OneEventKeepsMandates(h(n - 1), h(ReadAt(events[n - 1], n - 1)), events[n - 1], mandates, name);
    }
  }

  /** After any history every parameter mandatory for the image last built has its mandated value,
      whatever was asked for. */
  lemma MandatesHold(o: Origin, events: seq<Event>, mandates: Mandates, name: string)
    ensures var mandated := mandates(BuiltImage(HistoryOf(o, events, mandates), events, |events|));
      name in mandated ==> Lookup(After(o, events, mandates).postgres.value.params, name) == Some(mandated[name])
  {
    HistoryOfEvents(o, events, mandates);
    BuiltMandates(HistoryOf(o, events, mandates), events, mandates, |events|, name);
  }

  /** The image that an assignment writes to a branch it has read as `seen`, if it writes one. */
  function WrittenImage(seen: Spec, e: Event): string
    requires e.Assigned?
  {
    if seen.clusterName.Some? then seen.image
    else if seen.wakeupPool.None? then ""
    else WokenImage(seen.image, e.poolImage)
  }

  /** What one event does to the image. */
  function NextImage(b: Spec, seen: Spec, e: Event): string
  {
    match e
    case Updated(u, _) => if Accepted(b, u) then u.image.GetOr(b.image) else b.image
    case Assigned(_, _, _) => if WrittenImage(seen, e) == "" then b.image else WrittenImage(seen, e)
    case Slept => b.image
  }

  lemma ImageAfterEvent(b: Spec, seen: Spec, e: Event, mandates: Mandates)
    requires b.postgres.Some?
    ensures Happen(b, seen, e, mandates).image == NextImage(b, seen, e)
  {
  }

  /** The images of a history. */
  ghost predicate ImagesFollow(h: nat -> Spec, events: seq<Event>)
  {
    forall i {:trigger events[i]} :: 0 <= i < |events| ==>
      h(i + 1).image == NextImage(h(i), h(ReadAt(events[i], i)), events[i])
  }

  lemma HistoryImages(h: nat -> Spec, events: seq<Event>, mandates: Mandates)
    requires IsHistory(h, events, mandates)
    ensures ImagesFollow(h, events)
  {
    forall i | 0 <= i < |events| ensures h(i + 1).image == NextImage(h(i), h(ReadAt(events[i], i)), events[i]) {
      ImageAfterEvent(h(i), h(ReadAt(events[i], i)), events[i], mandates);
    }
  }

  /** The image that a cluster assignment has written since the branch was last built, if one has. */
  ghost function AssignedImage(h: nat -> Spec, events: seq<Event>, n: nat): Option<string>
    requires n <= |events|
  {
    if n == 0 then None
    else
      var e := events[n - 1];
      if e.Updated? && Accepted(h(n - 1), e.update) then None
      else if e.Assigned? && WrittenImage(h(ReadAt(e, n - 1)), e) != "" then Some(WrittenImage(h(ReadAt(e, n - 1)), e))
      else AssignedImage(h, events, n - 1)
  }

  lemma {:induction false} ImageIsBuiltAt(h: nat -> Spec, events: seq<Event>, n: nat)
    requires ImagesFollow(h, events) && n <= |events|
    ensures h(n).image == AssignedImage(h, events, n).GetOr(BuiltImage(h, events, n))
  {
    if n > 0 {
      ImageIsBuiltAt(h, events, n - 1);
      assert events[n - 1] == events[n - 1];
    }
  }

  /** After any history the current image is the one last built or the one written by an assignment
      since. */
  lemma ImageIsBuilt(o: Origin, events: seq<Event>, mandates: Mandates)
    ensures var h := HistoryOf(o, events, mandates);
      After(o, events, mandates).image ==
        AssignedImage(h, events, |events|).GetOr(BuiltImage(h, events, |events|))
  {
    HistoryOfEvents(o, events, mandates);
    HistoryImages(HistoryOf(o, events, mandates), events, mandates);
    ImageIsBuiltAt(HistoryOf(o, events, mandates), events, |events|);
  }

  // ----- meeting what is mandatory for the current image

  ghost predicate Meets(b: Spec, mandated: Params)
    requires b.postgres.Some?
  {
    forall name :: name in mandated ==>
      name in b.postgres.value.params && b.postgres.value.params[name] == mandated[name]
  }

  lemma MeetsBuilt(o: Origin, events: seq<Event>, mandates: Mandates)
    ensures Meets(After(o, events, mandates), mandates(BuiltImage(HistoryOf(o, events, mandates), events, |events|)))
  {
    forall name | name in mandates(BuiltImage(HistoryOf(o, events, mandates), events, |events|))
      ensures var params := After(o, events, mandates).postgres.value.params;
        name in params && params[name] == mandates(BuiltImage(HistoryOf(o, events, mandates), events, |events|))[name]
    {
      MandatesHold(o, events, mandates, name);
    }
  }

  lemma MeetsIff(b: Spec, built: Params, current: Params)
    requires b.postgres.Some? && Meets(b, built) && built.Keys == current.Keys
    ensures Meets(b, current) <==> current == built
    ensures current.Keys <= b.postgres.value.params.Keys
  {
  }

  /** Exactly when the branch meets what is mandatory for its current image: that is the same as for
      the image last built. No mandatory parameter is ever missing. */
  lemma CurrentMandatesHoldIff(o: Origin, events: seq<Event>, mandates: Mandates)
    requires SameNames(mandates)
    ensures var b, built := After(o, events, mandates), BuiltImage(HistoryOf(o, events, mandates), events, |events|);
      && (Meets(b, mandates(b.image)) <==> mandates(b.image) == mandates(built))
      && mandates(b.image).Keys <= b.postgres.value.params.Keys
  {
    var b := After(o, events, mandates);
    MeetsBuilt(o, events, mandates);
    MeetsIff(b, mandates(BuiltImage(HistoryOf(o, events, mandates), events, |events|)), mandates(b.image));
  }

  /** Every image that a request, a parent, an update or a pool cluster brings is plain. */
  ghost predicate PlainImages(o: Origin, events: seq<Event>)
  {
    && Plain(o.request.image) && (o.parent.Some? ==> Plain(o.parent.value.image))
    && (forall i :: 0 <= i < |events| && events[i].Updated? && events[i].update.image.Some? ==>
          Plain(events[i].update.image.value))
    && (forall i :: 0 <= i < |events| && events[i].Assigned? ==> Plain(events[i].poolImage))
  }

  /** Updates and assignments bring only images that are `good` if those before them are. */
  ghost predicate BringsOnly(h: nat -> Spec, events: seq<Event>, good: string -> bool)
  {
    && good(h(0).image)
    && (forall i :: 0 <= i < |events| && events[i].Updated? && events[i].update.image.Some? ==>
          good(h(i).image) ==> good(events[i].update.image.value))
    && (forall i :: 0 <= i < |events| && events[i].Assigned? ==>
          var seen := h(ReadAt(events[i], i));
          good(seen.image) ==> WrittenImage(seen, events[i]) == "" || good(WrittenImage(seen, events[i])))
  }

  /** Every step hands the property on, from the two images it may use. */
  ghost predicate HandsOn(h: nat -> Spec, events: seq<Event>, good: string -> bool)
  {
    forall i {:trigger events[i]} :: 0 <= i < |events| ==>
      good(h(i).image) && good(h(ReadAt(events[i], i)).image) ==> good(h(i + 1).image)
  }

  lemma GoodSteps(h: nat -> Spec, events: seq<Event>, good: string -> bool)
    requires ImagesFollow(h, events) && BringsOnly(h, events, good)
    ensures HandsOn(h, events, good)
  {
    forall i | 0 <= i < |events| && good(h(i).image) && good(h(ReadAt(events[i], i)).image)
      ensures good(h(i + 1).image)
    {
      assert h(i + 1).image == NextImage(h(i), h(ReadAt(events[i], i)), events[i]);
    }
  }

  lemma {:induction false} ImageStays(h: nat -> Spec, events: seq<Event>, good: string -> bool, n: nat)
    requires good(h(0).image) && HandsOn(h, events, good) && n <= |events|
    ensures good(h(n).image)
  {
    if n > 0 {
      ImageStays(h, events, good, n - 1);
      ImageStays(h, events, good, ReadAt(events[n - 1], n - 1));
    }
  }

  lemma WrittenImageIsPlain(seen: Spec, e: Event)
    requires e.Assigned? && Plain(seen.image) && Plain(e.poolImage)
    ensures WrittenImage(seen, e) == "" || Plain(WrittenImage(seen, e))
  {
  }

  lemma BranchImageIsPlain(h: nat -> Spec, events: seq<Event>, o: Origin, n: nat)
    requires ImagesFollow(h, events) && PlainImages(o, events) && Plain(h(0).image) && n <= |events|
    ensures Plain(h(n).image)
  {
    forall i | 0 <= i < |events| && events[i].Assigned? && Plain(h(ReadAt(events[i], i)).image)
      ensures var written := WrittenImage(h(ReadAt(events[i], i)), events[i]); written == "" || Plain(written)
    {
      WrittenImageIsPlain(h(ReadAt(events[i], i)), events[i]);
    }
    GoodSteps(h, events, Plain);
    ImageStays(h, events, Plain, n);
  }

  /** What is written has the extensions of what was read. */
  lemma WrittenImageKeepsKey(seen: Spec, e: Event)
    requires e.Assigned? && Plain(seen.image) && Plain(e.poolImage) && WrittenImage(seen, e) != ""
    ensures ExtensionKey(WrittenImage(seen, e)) == ExtensionKey(seen.image)
  {
    if AdoptableImage(seen.image, e.poolImage) != "" {
      PlainAdoptionKeepsKey(seen.image, e.poolImage);
    }
  }

  /** No update to another offering or major version came between the reading and the writing of an
      assignment. */
  ghost predicate ReadsInLine(h: nat -> Spec, events: seq<Event>)
  {
    forall i :: 0 <= i < |events| && events[i].Assigned? ==>
      ExtensionKey(h(ReadAt(events[i], i)).image) == ExtensionKey(h(i).image)
  }

  /** Assignments keep the `key` of the image they replace. */
  ghost predicate AssignmentsKeep<K>(h: nat -> Spec, events: seq<Event>, key: string -> K)
  {
    forall i :: 0 <= i < |events| && events[i].Assigned? ==>
      var written := WrittenImage(h(ReadAt(events[i], i)), events[i]); written == "" || key(written) == key(h(i).image)
  }

  lemma NextImageKeeps<K>(b: Spec, seen: Spec, e: Event, key: string -> K)
    requires e.Assigned? ==> WrittenImage(seen, e) == "" || key(WrittenImage(seen, e)) == key(b.image)
    ensures !(e.Updated? && Accepted(b, e.update)) ==> key(NextImage(b, seen, e)) == key(b.image)
  {
  }

  /** Only a build changes the key. */
  ghost predicate OnlyBuildsChange<K>(h: nat -> Spec, events: seq<Event>, key: string -> K)
  {
    forall i {:trigger events[i]} :: 0 <= i < |events| ==>
      (events[i].Updated? && Accepted(h(i), events[i].update)) || key(h(i + 1).image) == key(h(i).image)
  }

  lemma KeySteps<K>(h: nat -> Spec, events: seq<Event>, key: string -> K)
    requires ImagesFollow(h, events) && AssignmentsKeep(h, events, key)
    ensures OnlyBuildsChange(h, events, key)
  {
    forall i | 0 <= i < |events| && !(events[i].Updated? && Accepted(h(i), events[i].update))
      ensures key(h(i + 1).image) == key(h(i).image)
    {
      NextImageKeeps(h(i), h(ReadAt(events[i], i)), events[i], key);
    }
  }

  lemma {:induction false} KeyIsBuilt<K>(h: nat -> Spec, events: seq<Event>, key: string -> K, n: nat)
    requires OnlyBuildsChange(h, events, key) && n <= |events|
    ensures key(h(n).image) == key(BuiltImage(h, events, n))
  {
    if n > 0 {
      KeyIsBuilt(h, events, key, n - 1);
      assert events[n - 1] == events[n - 1];
    }
  }

  lemma PlainAssignmentsKeep(h: nat -> Spec, events: seq<Event>, o: Origin)
    requires ImagesFollow(h, events) && PlainImages(o, events) && Plain(h(0).image) && ReadsInLine(h, events)
    ensures AssignmentsKeep(h, events, ExtensionKey)
  {
    forall i | 0 <= i < |events| && events[i].Assigned?
      ensures var written := WrittenImage(h(ReadAt(events[i], i)), events[i]);
        written == "" || ExtensionKey(written) == ExtensionKey(h(i).image)
    {
      var seen := h(ReadAt(events[i], i));
      BranchImageIsPlain(h, events, o, ReadAt(events[i], i));
      if WrittenImage(seen, events[i]) != "" {
        WrittenImageKeepsKey(seen, events[i]);
      }
    }
  }

  lemma CreatedImageIsPlain(o: Origin, events: seq<Event>, mandates: Mandates)
    requires PlainImages(o, events)
    ensures Plain(After(o, [], mandates).image)
  {
    assert After(o, [], mandates).image == if o.parent.None? then o.request.image else o.parent.value.image;
  }

  /** With plain images, after any history the branch meets what is mandatory for its current image,
      unless an assignment was overtaken by an update to another offering or major version. */
  lemma MandatesHoldInLine(o: Origin, events: seq<Event>, mandates: Mandates)
    requires ByExtensions(mandates) && PlainImages(o, events) && ReadsInLine(HistoryOf(o, events, mandates), events)
    ensures var b := After(o, events, mandates); Meets(b, mandates(b.image))
  {
    var h := HistoryOf(o, events, mandates);
    HistoryOfEvents(o, events, mandates);
    HistoryImages(h, events, mandates);
    CreatedImageIsPlain(o, events, mandates);
    PlainAssignmentsKeep(h, events, o);
    KeySteps(h, events, ExtensionKey);
    KeyIsBuilt(h, events, ExtensionKey, |events|);
    MeetsBuilt(o, events, mandates);
    assert mandates(After(o, events, mandates).image) == mandates(BuiltImage(h, events, |events|));
  }

  /** Every update keeps the offering and the major version, as ValidateImageUpgrade of the projects
      service demands. */
  ghost predicate OnlyUpgrades(h: nat -> Spec, events: seq<Event>)
  {
    forall i :: 0 <= i < |events| && events[i].Updated? && events[i].update.image.Some? ==>
      SameLine(h(i).image, events[i].update.image.value)
  }

  /** Then the branch has the extensions of the image it was created with, for good. */
  lemma KeyNeverChanges(h: nat -> Spec, events: seq<Event>, o: Origin, n: nat)
    requires ImagesFollow(h, events) && PlainImages(o, events) && Plain(h(0).image) && OnlyUpgrades(h, events)
    requires n <= |events|
    ensures ExtensionKey(h(n).image) == ExtensionKey(h(0).image)
  {
    var good := image => Plain(image) && ExtensionKey(image) == ExtensionKey(h(0).image);
    forall i | 0 <= i < |events| && events[i].Updated? && events[i].update.image.Some? && good(h(i).image)
      ensures good(events[i].update.image.value)
    {
      PlainLineHasOneKey(h(i).image, events[i].update.image.value);
    }
    forall i | 0 <= i < |events| && events[i].Assigned? && good(h(ReadAt(events[i], i)).image)
      ensures var written := WrittenImage(h(ReadAt(events[i], i)), events[i]); written == "" || good(written)
    {
      var seen := h(ReadAt(events[i], i));
      WrittenImageIsPlain(seen, events[i]);
      if WrittenImage(seen, events[i]) != "" {
        WrittenImageKeepsKey(seen, events[i]);
      }
    }
    GoodSteps(h, events, good);
    ImageStays(h, events, good, n);
  }

  /** The promise, over every history of creates, validated updates, assignments however late, and
      sleeps: with plain images every mandatory parameter has its mandated value for the current
      image. */
  lemma CurrentMandatesHold(o: Origin, events: seq<Event>, mandates: Mandates)
    requires ByExtensions(mandates) && PlainImages(o, events) && OnlyUpgrades(HistoryOf(o, events, mandates), events)
    ensures var b := After(o, events, mandates); Meets(b, mandates(b.image))
  {
    var h := HistoryOf(o, events, mandates);
    HistoryOfEvents(o, events, mandates);
    HistoryImages(h, events, mandates);
    CreatedImageIsPlain(o, events, mandates);
    forall i | 0 <= i < |events| && events[i].Assigned?
      ensures ExtensionKey(h(ReadAt(events[i], i)).image) == ExtensionKey(h(i).image)
    {
      KeyNeverChanges(h, events, o, i);
      KeyNeverChanges(h, events, o, ReadAt(events[i], i));
    }
    MandatesHoldInLine(o, events, mandates);
  }

  /** Also for updates to any image, as long as assignments act on the branch as it is. */
  lemma CurrentMandatesHoldWhenRead(o: Origin, events: seq<Event>, mandates: Mandates)
    requires ByExtensions(mandates) && PlainImages(o, events)
    requires forall i :: 0 <= i < |events| && events[i].Assigned? ==> events[i].read >= i
    ensures var b := After(o, events, mandates); Meets(b, mandates(b.image))
  {
    MandatesHoldInLine(o, events, mandates);
  }

  // ----- images that are not plain

  /** A branch of a wakeup pool falls asleep and is woken on a cluster with a pinned image. The image
      is adopted, and a parameter that is mandated otherwise for it keeps its old value until the
      next update. */
  lemma PinnedImageKeepsOldValue(r: Request, cluster: string, pool: string, offering: string, major: string,
                                 minor: string, next: string, digest: string, mandates: Mandates, name: string)
    requires PinnedPair(offering, major, minor, next, digest) && cluster != ""
    requires r.image == Named(offering, major, minor, "")
    requires name in mandates(r.image) && name in mandates(Named(offering, major, next, digest))
    requires mandates(Named(offering, major, next, digest))[name] != mandates(r.image)[name]
    ensures var pinned := Named(offering, major, next, digest);
      var woken := [Slept, Updated(NO_CHANGE.(hibernate := Some(false)), 0), Assigned(2, "woken", pinned)];
      var b := After(Origin(r, None, Some((cluster, pool))), woken, mandates);
      b.image == pinned && !Meets(b, mandates(b.image))
  {
    var pinned := Named(offering, major, next, digest);
    PinnedIsAdoptable(offering, major, minor, next, digest);
    var o := Origin(r, None, Some((cluster, pool)));
    var wake, given := Updated(NO_CHANGE.(hibernate := Some(false)), 0), Assigned(2, "woken", pinned);
    AfterThree(o, Slept, wake, given, mandates);
    WokenOnAdopted(After(o, [], mandates), pinned, mandates, name);
  }

  lemma AfterThree(o: Origin, a: Event, b: Event, c: Event, mandates: Mandates)
    requires !a.Assigned? && !b.Assigned? && (c.Assigned? ==> c.read >= 2)
    ensures var first := After(o, [], mandates);
      var second := Happen(first, first, a, mandates);
      var third := Happen(second, second, b, mandates);
      After(o, [a, b, c], mandates) == Happen(third, third, c, mandates)
  {
    AfterOneMore(o, [], a, mandates);
    AfterOneMore(o, [a], b, mandates);
    AfterOneMore(o, [a, b], c, mandates);
    assert [] + [a] == [a] && [a] + [b] == [a, b] && [a, b] + [c] == [a, b, c];
    assert [a][..1] == [a] && [a, b][..2] == [a, b];
  }

  lemma WokenOnAdopted(b: Spec, poolImage: string, mandates: Mandates, name: string)
    requires b.postgres.Some? && b.wakeupPool.Some? && name in mandates(b.image)
    requires AdoptableImage(b.image, poolImage) == poolImage != ""
    ensures var woken := Rebuild(Sleep(b), NO_CHANGE.(hibernate := Some(false)), mandates);
      var after := Assign(woken, woken, "woken", poolImage);
      && woken.postgres.Some? && after.image == poolImage
      && name in after.postgres.value.params && after.postgres.value.params[name] == mandates(b.image)[name]
  {
  }
}
