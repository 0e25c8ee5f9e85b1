/**
 * The student's client of the API (`StudentService`): the profile read through
 * a `sessionStorage` cache, and the paths of the routine requests. The HTTP
 * layer (`APIService.get`) is an abstract response; `JSON.parse` and
 * `JSON.stringify` are functions given to the service.
 */
module StudentApi {
  import opened Wrappers
  import Decimal

  datatype Instructor = Instructor(id: nat, firstName: string, lastName: string)

  /** A `StudentDetail`; `instructor` is `None` when the field is missing or falsy. */
  datatype StudentDetail = StudentDetail(id: nat, firstName: string, lastName: string, instructor: Option<Instructor>)

  datatype ApiError = ApiError(status: nat)

  /** What `this.get('/me')` resolves to: `{data, hasError: false}` or an error response. */
  datatype ApiResponse = Success(data: StudentDetail) | Failure(error: ApiError)

  /** The `sessionStorage` key of the cached profile. */
  const CacheKey: string := "student"

  const MePath: string := "/me"

  /** The path `getRoutines` requests. */
  const RoutinesPath: string := "/routines"

  /** The path `getRoutineDetail(routineId)` requests: `/routines/${routineId}`. */
  function RoutineDetailPath(routineId: nat): (path: string)
    ensures |path| > |RoutinesPath| + 1 && path[..|RoutinesPath| + 1] == RoutinesPath + "/"
    ensures Decimal.Parse(path[|RoutinesPath| + 1..]) == Some(routineId)
    ensures var digits := path[|RoutinesPath| + 1..]; |digits| == 1 || digits[0] != '0'
  {
    var path := RoutinesPath + "/" + Decimal.Format(routineId);
    assert path[|RoutinesPath| + 1..] == Decimal.Format(routineId);
    Decimal.ParseFormat(routineId);
    path
  }

  /** Different routines are requested on different paths. */
  lemma RoutineDetailPathInjective(a: nat, b: nat)
    requires RoutineDetailPath(a) == RoutineDetailPath(b)
    ensures a == b
  {
  }

  /**
   * The cached profile `me()` returns without a request: the entry is present
   * and non-empty, `JSON.parse` accepts it, and its `instructor` is truthy.
   */
  function CachedStudent(storage: map<string, string>, parse: string -> Option<StudentDetail>): (cached: Option<StudentDetail>)
    ensures cached.Some? ==> cached.value.instructor.Some?
    ensures cached.Some? ==> CacheKey in storage && storage[CacheKey] != "" && parse(storage[CacheKey]) == cached
    ensures (CacheKey in storage && storage[CacheKey] != "" && parse(storage[CacheKey]).Some?
             && parse(storage[CacheKey]).value.instructor.Some?) ==> cached == parse(storage[CacheKey])
  {
    if CacheKey in storage && storage[CacheKey] != "" then
      match parse(storage[CacheKey])
      case Some(d) => if d.instructor.Some? then Some(d) else None
      case None => None
    else
      None
  }

  /** What `JSON.parse` and `JSON.stringify` promise each other for the profile `d`. */
  predicate JsonRoundTrip(parse: string -> Option<StudentDetail>, stringify: StudentDetail -> string, d: StudentDetail) {
    parse(stringify(d)) == Some(d) && parse("") == None
  }

  /** A profile stored after a successful request is served from the cache when it names an instructor. */
  lemma StoredProfileIsServed(storage: map<string, string>, parse: string -> Option<StudentDetail>,
                              stringify: StudentDetail -> string, d: StudentDetail)
    requires JsonRoundTrip(parse, stringify, d)
    ensures d.instructor.Some? ==> CachedStudent(storage[CacheKey := stringify(d)], parse) == Some(d)
    ensures d.instructor.None? ==> CachedStudent(storage[CacheKey := stringify(d)], parse).None?
  {
  }

  class StudentService {
    /** `sessionStorage`. */
    var storage: map<string, string>
    /** The paths passed to `this.get`, in order. */
    var requests: seq<string>
    /** `JSON.parse` on a profile: `None` when it throws. */
    const parse: string -> Option<StudentDetail>
    /** `JSON.stringify` on a profile. */
    const stringify: StudentDetail -> string

    constructor (storage: map<string, string>, parse: string -> Option<StudentDetail>, stringify: StudentDetail -> string)
      ensures this.storage == storage && requests == []
      ensures this.parse == parse && this.stringify == stringify
    {
      this.storage := storage;
      this.requests := [];
      this.parse := parse;
      this.stringify := stringify;
    }

    /**
     * `me()`, with `res` the response the request would resolve to. A cached
     * profile with an instructor is returned without a request; otherwise
     * `/me` is requested, a successful response replaces the cache entry, and
     * the response is returned as it came.
     */
    method Me(res: ApiResponse) returns (r: ApiResponse)
      modifies this`storage, this`requests
      ensures var cached := CachedStudent(old(storage), parse);
              && (cached.Some? ==> r == Success(cached.value) && storage == old(storage) && requests == old(requests))
              && (cached.None? ==> r == res && requests == old(requests) + [MePath])
              && (cached.None? && res.Success? ==> storage == old(storage)[CacheKey := stringify(res.data)])
              && (cached.None? && res.Failure? ==> storage == old(storage))
    {
      var localData := if CacheKey in storage then Some(storage[CacheKey]) else None;
      if localData.Some? && localData.value != "" {
        var parsed := parse(localData.value);
        if parsed.Some? && parsed.value.instructor.Some? {
          return Success(parsed.value);
        }
      }
      requests := requests + [MePath];
      r := res;
      if res.Success? {
        storage := storage[CacheKey := stringify(res.data)];
      }
    }
  }
}
