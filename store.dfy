/** The relational store the backend reads and writes, one field per table.
    Tables read by primary key are maps from the key to the row; tables
    searched by other columns are sequences of rows. */
module Store {
  import opened Base
  import opened ClassroomModels
  import opened Profiles
  import opened UserModels
  import opened BeatModels

  class Database {
    var classrooms: map<Uuid, Classroom>
    var joinRequests: map<Uuid, JoinRequest>
    var enrollments: seq<StudentClassroom>
    var assignments: map<Uuid, Assignment>
    var submissions: map<Uuid, StudentAssignment>
    var students: seq<Profile>
    var teachers: seq<Profile>
    var users: seq<User>
    /** `ClockedSchedule` rows; a row's primary key is its position. */
    var clocked: seq<Instant>
    var periodicTasks: seq<PeriodicTask>

    constructor ()
      ensures classrooms == map[] && joinRequests == map[] && enrollments == []
      ensures assignments == map[] && submissions == map[]
      ensures students == [] && teachers == [] && users == []
      ensures clocked == [] && periodicTasks == []
    {
      classrooms, joinRequests, enrollments := map[], map[], [];
      assignments, submissions := map[], map[];
      students, teachers, users := [], [], [];
      clocked, periodicTasks := [], [];
    }
  }
}
