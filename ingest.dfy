/**
 * The decision sequence of the pixel-submission endpoint
 * (backend/server.go, handlePixelUpdate): method check, validation, rate
 * limit, server timestamp, persistence, enqueue. The HTTP response is
 * returned as a value; JSON decoding is given as its result (None when the
 * body does not decode), the clock readings as parameters and the database
 * outcome as a flag.
 */
module Ingest {
  import opened Wrappers
  import opened Pixels
  import opened Queue
  import opened RateLimit

  /** A status code with the message written back to the caller. */
  datatype Response = Response(status: nat, message: string)

  const MethodNotAllowed := Response(405, "Method not allowed")
  const InvalidJson := Response(400, "Invalid JSON")
  const RateLimited := Response(429, "Rate limit exceeded. Please wait before placing another pixel.")
  const QueueFull := Response(503, "Queue is full. Please try again.")
  const Accepted := Response(200, "Pixel update accepted")

  /**
   * Unix nanoseconds to Unix milliseconds, as Go's int64 division does it:
   * the quotient is truncated toward zero.
   */
  function UnixMillis(nanos: int): (ms: int)
    ensures nanos >= 0 ==> 0 <= ms && ms * 1_000_000 <= nanos < ms * 1_000_000 + 1_000_000
    ensures nanos < 0 ==> ms <= 0 && ms * 1_000_000 - 1_000_000 < nanos <= ms * 1_000_000
  {
    if nanos >= 0 then nanos / 1_000_000 else -((-nanos) / 1_000_000)
  }

  /** The pixel as it leaves the endpoint: the caller's timestamp replaced by the server's. */
  function Stamped(p: PixelUpdate, stampNanos: int): (q: PixelUpdate)
    ensures q.x == p.x && q.y == p.y && q.color == p.color && q.userId == p.userId
    ensures q.timestamp == UnixMillis(stampNanos)
    ensures ValidatePixel(q) == ValidatePixel(p)
  {
    p.(timestamp := UnixMillis(stampNanos))
  }

  class Server {
    const queue: PixelQueue
    const rateLimiter: RateLimiter
    /** The pixels the database has stored, in the order they were saved. */
    var persisted: seq<PixelUpdate>

    ghost predicate Valid()
      reads this, queue
    {
      queue.Valid()
    }

    constructor (queue: PixelQueue, rateLimiter: RateLimiter)
      requires queue.Valid()
      ensures Valid()
      ensures this.queue == queue && this.rateLimiter == rateLimiter && persisted == []
    {
      this.queue := queue;
      this.rateLimiter := rateLimiter;
      persisted := [];
    }

    /**
     * Handles one submission. `allowNanos` is the clock reading Allow takes,
     * `stampNanos` the later one the timestamp comes from, and `saveFails`
     * whether the database rejects the save. Each outcome names the step
     * that produced it and says what that step left changed.
     */
    method HandlePixelUpdate(httpMethod: string, body: Option<PixelUpdate>, allowNanos: int, stampNanos: int, saveFails: bool)
      returns (resp: Response)
      requires Valid()
      modifies this, queue, rateLimiter
      ensures Valid()
      // Anything but POST is refused first, the preflight OPTIONS included.
      ensures httpMethod != "POST" ==> resp == MethodNotAllowed
      ensures httpMethod == "OPTIONS" ==> resp.status == 405
      ensures httpMethod == "POST" && body.None? ==> resp == InvalidJson
      ensures httpMethod == "POST" && body.Some? && ValidatePixel(body.value).Some? ==>
        resp == Response(400, ValidatePixel(body.value).value.message)
      // Requests refused before the rate limiter change nothing.
      ensures (httpMethod != "POST" || body.None? || ValidatePixel(body.value).Some?) ==>
        queue.items == old(queue.items) && rateLimiter.lastUpdate == old(rateLimiter.lastUpdate) &&
        persisted == old(persisted)
      // A valid request is put to the rate limiter exactly once.
      ensures httpMethod == "POST" && body.Some? && ValidatePixel(body.value).None? ==>
        var admitted := Admit(old(rateLimiter.lastUpdate), rateLimiter.cooldown, body.value.userId, allowNanos);
        var pixel := Stamped(body.value, stampNanos);
        rateLimiter.lastUpdate == admitted.1 &&
        (!admitted.0 ==> resp == RateLimited && queue.items == old(queue.items) && persisted == old(persisted)) &&
        (admitted.0 ==>
          // The save is attempted and its failure ignored; the enqueue follows either way.
          persisted == old(persisted) + (if saveFails then [] else [pixel]) &&
          (old(|queue.items|) >= queue.maxSize ==> resp == QueueFull && queue.items == old(queue.items)) &&
          (old(|queue.items|) < queue.maxSize ==> resp == Accepted && queue.items == old(queue.items) + [pixel]))
    {
      if httpMethod != "POST" {
        return MethodNotAllowed;
      }
      if body.None? {
        return InvalidJson;
      }
      var pixel := body.value;
      var invalid := ValidatePixel(pixel);
      if invalid.Some? {
        return Response(400, invalid.value.message);
      }
      var allowed := rateLimiter.Allow(pixel.userId, allowNanos);
      if !allowed {
        return RateLimited;
      }
      pixel := pixel.(timestamp := UnixMillis(stampNanos));
      if !saveFails {
        persisted := persisted + [pixel];
      }
      var err := queue.Enqueue(pixel);
      if err.Fail? {
        return QueueFull;
      }
      resp := Accepted;
    }
  }
}
