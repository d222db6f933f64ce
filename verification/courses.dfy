/**
  The course catalogue kept in MongoDB: the Course schema's required fields
  and defaults, the public listing that reseeds twelve fallback courses
  whenever no active course is left, and the admin create, update and soft
  delete handlers (which run behind `protect` and `adminOnly`, see the
  Guards module).
 */
module Courses {
  import opened Common
  import Seqs
  import Sorting
  import opened Docs

  /** The optional `thumbnail: { url, alt }` sub-document. */
  datatype Thumbnail = Thumbnail(url: Option<string>, alt: Option<string>)

  /** A stored course; `createdAt` is the timestamp Mongoose sets on insert. */
  datatype Course = Course(
    name: string,
    tag: string,
    description: Option<string>,
    thumbnail: Option<Thumbnail>,
    isActive: bool,
    order: int,
    createdAt: int)

  /**
    A request body as `Course.create` and `findByIdAndUpdate` receive it:
    every field may be absent.
   */
  datatype Body = Body(
    name: Option<string>,
    tag: Option<string>,
    description: Option<string>,
    thumbnail: Option<Thumbnail>,
    isActive: Option<bool>,
    order: Option<int>)

  datatype Reply =
    | Courses(courses: seq<Course>)
    | CourseCreated(course: Course)
    | CourseUpdated(updated: Option<Course>)
    | Removed(message: string)
    | Failed(status: int, error: string)

  // ---------------------------------------------------------------------------
  // Course.create

  /**
    `Course.create(body)`: `name` and `tag` are required (an empty string
    fails Mongoose's `required` too); `isActive` defaults to true and
    `order` to 0. `None` is a validation error.
   */
  function Create(b: Body, now: int): (r: Option<Course>)
    ensures r.Some? <==> Filled(b.name) && Filled(b.tag)
    ensures r.Some? ==> && r.value.name == b.name.value && r.value.tag == b.tag.value
                        && r.value.description == b.description && r.value.thumbnail == b.thumbnail
                        && r.value.isActive == (b.isActive != Some(false))
                        && r.value.order == (if b.order.Some? then b.order.value else 0)
                        && r.value.createdAt == now
  {
    if !Filled(b.name) || !Filled(b.tag) then None
    else Some(Course(b.name.value, b.tag.value, b.description, b.thumbnail,
                     if b.isActive.Some? then b.isActive.value else true,
                     if b.order.Some? then b.order.value else 0, now))
  }

  // ---------------------------------------------------------------------------
  // GET /api/courses

  /** One fallback course: name, tag and thumbnail photo. */
  datatype Seed = Seed(name: string, tag: string, photo: string)

  const SeedTable: seq<Seed> := [
    Seed("AFFILIATE MARKETING", "Marketing", "https://images.unsplash.com/photo-1563986768609-322da13575f3?w=400&auto=format&fit=crop&q=80"),
    Seed("INSTAGRAM MARKETING", "Social Media", "https://images.unsplash.com/photo-1611162617474-5b21e879e113?w=400&auto=format&fit=crop&q=80"),
    Seed("GRAPHIC DESIGNING", "Design", "https://images.unsplash.com/photo-1561070791-2526d30994b5?w=400&auto=format&fit=crop&q=80"),
    Seed("VIDEO EDITING", "Creative", "https://images.unsplash.com/photo-1574717024653-61fd2cf4d44d?w=400&auto=format&fit=crop&q=80"),
    Seed("FACEBOOK ADS", "Advertising", "https://images.unsplash.com/photo-1460925895917-afdab827c52f?w=400&auto=format&fit=crop&q=80"),
    Seed("GOOGLE ADS", "Advertising", "https://images.unsplash.com/photo-1573804633927-bfcbcd909acd?w=400&auto=format&fit=crop&q=80"),
    Seed("YOUTUBE MASTERY", "Content", "https://images.unsplash.com/photo-1611162616305-c69b3fa7fbe0?w=400&auto=format&fit=crop&q=80"),
    Seed("CONTENT CREATION", "Creative", "https://images.unsplash.com/photo-1504711434969-e33886168f5c?w=400&auto=format&fit=crop&q=80"),
    Seed("SOCIAL MEDIA MANAGEMENT", "Social Media", "https://images.unsplash.com/photo-1542744173-8e7e53415bb0?w=400&auto=format&fit=crop&q=80"),
    Seed("DROP SHIPPING", "eCommerce", "https://images.unsplash.com/photo-1563013544-824ae1b704d3?w=400&auto=format&fit=crop&q=80"),
    Seed("FREELANCING", "Career", "https://images.unsplash.com/photo-1498049794561-7780e7231661?w=400&auto=format&fit=crop&q=80"),
    Seed("WHATSAPP MARKETING", "Marketing", "https://images.unsplash.com/photo-1611944212129-29977ae1398c?w=400&auto=format&fit=crop&q=80")
  ]

  /** The `i`-th fallback course as `insertMany` stores it: `{ ...seed, order: i }` with the schema defaults. */
  function SeedCourse(i: nat, now: int): (c: Course)
    requires i < |SeedTable|
    ensures Create(SeedBody(i), now) == Some(c)
  {
    var e := SeedTable[i];
    Course(e.name, e.tag, None, Some(Thumbnail(Some(e.photo), None)), true, i, now)
  }

  /** The body `insertMany` receives for the `i`-th fallback course. */
  function SeedBody(i: nat): (b: Body)
    requires i < |SeedTable|
    ensures b.order == Some(i) && b.isActive.None?
    ensures b.name == Some(SeedTable[i].name) && b.tag == Some(SeedTable[i].tag)
  {
    var e := SeedTable[i];
    Body(Some(e.name), Some(e.tag), None, Some(Thumbnail(Some(e.photo), None)), None, Some(i))
  }

  /** The twelve fallback courses in table order. */
  function SeedCourses(now: int): (r: seq<Course>)
    ensures |r| == |SeedTable| == 12
    ensures forall i :: 0 <= i < |r| ==> r[i] == SeedCourse(i, now)
    ensures forall i :: 0 <= i < |r| ==> r[i].order == i && r[i].isActive && r[i].name == SeedTable[i].name
  {
    seq(|SeedTable|, i requires 0 <= i < |SeedTable| => SeedCourse(i, now))
  }

  /** The sort of the listing: `{ order: 1, createdAt: 1 }`. */
  function ListOrder(c: Course): Sorting.Key {
    Sorting.Key(c.order, c.createdAt)
  }

  function IsActive(c: Course): bool {
    c.isActive
  }

  /** The query `Course.find({ isActive: true })` before sorting. */
  function ActiveCourses(s: Collection<Course>): (r: seq<Course>)
    ensures forall x :: x in r <==> x in Bodies(s) && x.isActive
  {
    Seqs.Filter(Bodies(s), IsActive)
  }

  /** `ids` can name the inserted documents: pairwise distinct and not yet taken. */
  predicate FreshIds(s: Collection<Course>, ids: seq<Id>) {
    && (forall i, j :: 0 <= i < j < |ids| ==> ids[i] != ids[j])
    && (forall i :: 0 <= i < |ids| ==> !Has(s, ids[i]))
  }

  /** The documents `insertMany` appends. */
  function SeedDocs(ids: seq<Id>, now: int): (r: Collection<Course>)
    requires |ids| == |SeedTable|
    ensures |r| == |SeedTable|
    ensures forall i :: 0 <= i < |r| ==> r[i] == Doc(ids[i], SeedCourse(i, now))
    ensures Bodies(r) == SeedCourses(now)
  {
    seq(|SeedTable|, i requires 0 <= i < |SeedTable| => Doc(ids[i], SeedCourse(i, now)))
  }

  /**
    `GET /api/courses`: the active courses ordered by `order`, then
    `createdAt`. When none is active (whatever inactive courses exist), the
    twelve fallback courses are inserted under `seedIds` and returned. A
    taken or repeated id fails the insert, answered with 500.
   */
  function List(s: Collection<Course>, seedIds: seq<Id>, now: int): (r: (Collection<Course>, Reply))
    requires |seedIds| == |SeedTable|
    ensures r.1.Courses? || r.1 == Failed(500, "Could not fetch courses.")
    ensures r.1.Courses? ==> forall k :: 0 <= k < |r.1.courses| ==> r.1.courses[k].isActive
    ensures r.1.Courses? ==> Sorting.SortedBy(r.1.courses, ListOrder)
    ensures ActiveCourses(s) != [] ==>
              && r.0 == s && r.1.Courses?
              && forall x :: x in r.1.courses <==> x in Bodies(s) && x.isActive
    ensures ActiveCourses(s) != [] ==> |r.1.courses| == |ActiveCourses(s)|
    ensures ActiveCourses(s) != [] ==> multiset(r.1.courses) == multiset(ActiveCourses(s))
    ensures ActiveCourses(s) == [] && FreshIds(s, seedIds) ==>
              && r.0 == s + SeedDocs(seedIds, now)
              && r.1 == Courses(SeedCourses(now))
    ensures !r.1.Courses? ==> r.0 == s
  {
    var active := ActiveCourses(s);
    if active != [] then
      var sorted := Sorting.SortBy(active, ListOrder);
      forall x ensures x in sorted <==> x in active {
        Sorting.SortMembers(active, ListOrder, x);
      }
      (s, Courses(sorted))
    else if !FreshIds(s, seedIds) then (s, Failed(500, "Could not fetch courses."))
    else
      assert Sorting.SortedBy(SeedCourses(now), ListOrder);
      (s + SeedDocs(seedIds, now), Courses(SeedCourses(now)))
  }

  /** The listing of a collection with an active course changes nothing and returns the same list whatever the ids. */
  lemma ListWithActiveIgnoresIds(s: Collection<Course>, ids1: seq<Id>, ids2: seq<Id>, now1: int, now2: int)
    requires |ids1| == |ids2| == |SeedTable|
    requires exists k :: 0 <= k < |s| && s[k].body.isActive
    ensures List(s, ids1, now1) == List(s, ids2, now2)
  {
    var k :| 0 <= k < |s| && s[k].body.isActive;
    assert s[k].body in ActiveCourses(s);
  }

  lemma BodiesAppend<T>(a: Collection<T>, b: Collection<T>)
    ensures Bodies(a + b) == Bodies(a) + Bodies(b)
  {
  }

  /**
    Reseeding happens at most once: after a reseed the next listing finds
    the twelve courses active, inserts nothing, and returns them in the
    same order.
   */
  lemma ReseedOnce(s: Collection<Course>, ids: seq<Id>, now: int, later: seq<Id>, now2: int)
    requires |ids| == |later| == |SeedTable|
    requires ActiveCourses(s) == [] && FreshIds(s, ids)
    ensures var s1 := List(s, ids, now).0;
            List(s1, later, now2) == (s1, Courses(SeedCourses(now)))
  {
    var seeds := SeedCourses(now);
    var s1 := List(s, ids, now).0;
    assert s1 == s + SeedDocs(ids, now);
    BodiesAppend(s, SeedDocs(ids, now));
    Seqs.FilterAppend(Bodies(s), seeds, IsActive);
    Seqs.FilterKeepsAll(seeds, IsActive);
    assert ActiveCourses(s1) == seeds;
    assert Sorting.SortedBy(seeds, ListOrder);
    Sorting.SortOfSorted(seeds, ListOrder);
  }

  // ---------------------------------------------------------------------------
  // Admin handlers

  /** `POST /api/courses`: the body is stored as given; a validation error or a taken id is 500. */
  function CreateCourse(s: Collection<Course>, b: Body, id: Id, now: int): (r: (Collection<Course>, Reply))
    ensures r.1.CourseCreated? <==> Filled(b.name) && Filled(b.tag) && !Has(s, id)
    ensures r.1.CourseCreated? ==> r.0 == s + [Doc(id, r.1.course)] && Some(r.1.course) == Create(b, now)
    ensures !r.1.CourseCreated? ==> r == (s, Failed(500, "Could not create course."))
  {
    match Create(b, now)
    case None => (s, Failed(500, "Could not create course."))
    case Some(c) =>
      if Has(s, id) then (s, Failed(500, "Could not create course."))
      else (Add(s, id, c), CourseCreated(c))
  }

  /** `findByIdAndUpdate` with a request body: present fields overwrite, absent ones stay. */
  function Patch(c: Course, b: Body): (r: Course)
    ensures r.name == OrElseAny(b.name, c.name) && r.tag == OrElseAny(b.tag, c.tag)
    ensures r.description == (if b.description.Some? then b.description else c.description)
    ensures r.thumbnail == (if b.thumbnail.Some? then b.thumbnail else c.thumbnail)
    ensures r.isActive == (if b.isActive.Some? then b.isActive.value else c.isActive)
    ensures r.order == (if b.order.Some? then b.order.value else c.order)
    ensures r.createdAt == c.createdAt
  {
    Course(
      OrElseAny(b.name, c.name), OrElseAny(b.tag, c.tag),
      if b.description.Some? then b.description else c.description,
      if b.thumbnail.Some? then b.thumbnail else c.thumbnail,
      if b.isActive.Some? then b.isActive.value else c.isActive,
      if b.order.Some? then b.order.value else c.order,
      c.createdAt)
  }

  /** A present value, else the fallback (an absent update field). */
  function OrElseAny(v: Option<string>, d: string): string {
    if v.Some? then v.value else d
  }

  /** A body with no fields leaves a course as it is. */
  lemma EmptyPatch(c: Course)
    ensures Patch(c, Body(None, None, None, None, None, None)) == c
  {
  }

  /**
    `PUT /api/courses/:id`: no validators run, and an unknown id answers
    `{ course: null }` with success.
   */
  function UpdateCourse(s: Collection<Course>, id: Id, b: Body): (r: (Collection<Course>, Reply))
    ensures r.1.CourseUpdated?
    ensures !Has(s, id) ==> r == (s, CourseUpdated(None))
    ensures Has(s, id) ==> r.1.updated == Some(Patch(Get(s, id).value, b)) && Get(r.0, id) == r.1.updated
    ensures forall other :: other != id ==> Get(r.0, other) == Get(s, other)
  {
    match Get(s, id)
    case None => (s, CourseUpdated(None))
    case Some(c) => var c1 := Patch(c, b); (Set(s, id, c1), CourseUpdated(Some(c1)))
  }

  /** An update can store what `create` refuses: an empty name passes, since update skips validation. */
  lemma UpdateSkipsValidation(s: Collection<Course>, id: Id, b: Body, now: int)
    requires Has(s, id) && b.name == Some("")
    ensures Create(b, now).None?
    ensures Get(UpdateCourse(s, id, b).0, id).value.name == ""
  {
  }

  /** `DELETE /api/courses/:id`: clears `isActive` only; an unknown id still answers success. */
  function DeleteCourse(s: Collection<Course>, id: Id): (r: (Collection<Course>, Reply))
    ensures r.1 == Removed("Course removed.")
    ensures Has(s, id) ==> Get(r.0, id) == Some(Get(s, id).value.(isActive := false))
    ensures !Has(s, id) ==> r.0 == s
    ensures forall other :: other != id ==> Get(r.0, other) == Get(s, other)
  {
    match Get(s, id)
    case None => (s, Removed("Course removed."))
    case Some(c) => (Set(s, id, c.(isActive := false)), Removed("Course removed."))
  }

  /** Soft delete is an update of `isActive` alone. */
  lemma DeleteIsUpdate(s: Collection<Course>, id: Id)
    ensures DeleteCourse(s, id).0 == UpdateCourse(s, id, Body(None, None, None, None, Some(false), None)).0
  {
  }

  /** A deleted course is never listed again (the listing only returns active courses). */
  lemma DeletedNotListed(s: Collection<Course>, id: Id, seedIds: seq<Id>, now: int)
    requires Has(s, id) && |seedIds| == |SeedTable|
    ensures var s1 := DeleteCourse(s, id).0;
            var listed := List(s1, seedIds, now).1;
            listed.Courses? ==> Get(s1, id).value !in listed.courses
  {
  }
}
