/** The task repository the backend service loads from and saves to
    (the `TaskRepository` interface of
    backend/internal/domain/repository/task_repository.go). The file-backed
    implementation is replaced by a list held in memory; two flags decide
    whether reading and writing fail. */
module Repository {
  import opened Common
  import opened Core
  import opened Models

  const ReadFailure: Error := Storage("read failure")
  const WriteFailure: Error := Storage("write failure")

  class TaskRepository {
    /** The persisted task list. */
    var stored: seq<Task>
    var getFails: bool
    var saveFails: bool
    /** How many times `SaveAll` has been called. */
    ghost var saveCalls: nat

    constructor (stored: seq<Task>, getFails: bool, saveFails: bool)
      ensures this.stored == stored && this.getFails == getFails
      ensures this.saveFails == saveFails && saveCalls == 0
    {
      this.stored := stored;
      this.getFails := getFails;
      this.saveFails := saveFails;
      saveCalls := 0;
    }

    /** The persisted list, or the read error. */
    method GetAll() returns (r: Result<seq<Task>, Error>)
      ensures r == if getFails then Failure(ReadFailure) else Success(stored)
    {
      if getFails {
        r := Failure(ReadFailure);
      } else {
        r := Success(stored);
      }
    }

    /** Persists `tasks` in place of the stored list, or reports the write
        error and keeps the stored list. */
    method SaveAll(tasks: seq<Task>) returns (r: Outcome<Error>)
      modifies this`stored, this`saveCalls
      ensures saveCalls == old(saveCalls) + 1
      ensures r == if saveFails then Fail(WriteFailure) else Pass
      ensures stored == if saveFails then old(stored) else tasks
    {
      saveCalls := saveCalls + 1;
      if saveFails {
        r := Fail(WriteFailure);
      } else {
        stored := tasks;
        r := Pass;
      }
    }
  }
}
