/** The task manager component's state and its event handlers. Each handler
    overwrites some of the component's state fields in turn; the list
    computations inside them are the functions of module Tasks. */
module App {
  import opened Tasks
  import Text
  import Session

  /** The two login inputs. */
  datatype LoginForm = LoginForm(username: string, password: string)

  const EmptyLoginForm := LoginForm("", "")

  /** JavaScript truthiness of the edit target: of the values it can hold,
      null and the number 0 are falsy and every other id is truthy. */
  predicate Truthy(e: Option<int>)
    ensures Truthy(e) <==> e !in {None, Some(0)}
  {
    e.Some? && e.value != 0
  }

  /** The guard `!formData.title.trim()` that makes a save a silent no-op:
      a draft is rejected exactly when its title is empty or all whitespace. */
  predicate TitleMissing(d: Draft)
    ensures TitleMissing(d) <==> Text.IsBlank(d.title)
  {
    Text.Trim(d.title) == []
  }

  class TaskManager {
    var isLoggedIn: bool
    var currentUser: string
    var tasks: seq<Task>
    var editingTask: Option<int>
    var showAddForm: bool
    var formData: Draft
    var loginForm: LoginForm
    var loginError: string

    /** Task ids are unique. The component does not enforce this itself;
        every handler keeps it, Add as long as the new id is fresh. */
    ghost predicate Valid()
      reads this
    {
      UniqueIds(tasks)
    }

    /** The add/edit form is on screen: `showAddForm || editingTask`. It is
        open while the add flag is set or a truthy edit target is set, and
        closed when neither is. */
    predicate FormVisible()
      reads this
      ensures showAddForm ==> FormVisible()
      ensures editingTask.Some? && editingTask.value != 0 ==> FormVisible()
      ensures !showAddForm && (editingTask == None || editingTask == Some(0)) ==> !FormVisible()
    {
      showAddForm || Truthy(editingTask)
    }

    /** The state the component mounts with: logged out and empty. */
    constructor ()
      ensures !isLoggedIn && currentUser == "" && tasks == [] && editingTask == None
      ensures !showAddForm && formData == EmptyDraft
      ensures loginForm == EmptyLoginForm && loginError == ""
      ensures Valid()
    {
      isLoggedIn := false;
      currentUser := "";
      tasks := [];
      editingTask := None;
      showAddForm := false;
      formData := EmptyDraft;
      loginForm := EmptyLoginForm;
      loginError := "";
    }

    // ----- the onChange setters of the inputs

    method SetLoginUsername(username: string)
      modifies this`loginForm
      ensures loginForm == old(loginForm).(username := username)
    {
      loginForm := loginForm.(username := username);
    }

    method SetLoginPassword(password: string)
      modifies this`loginForm
      ensures loginForm == old(loginForm).(password := password)
    {
      loginForm := loginForm.(password := password);
    }

    method SetTitle(title: string)
      modifies this`formData
      ensures formData == old(formData).(title := title)
    {
      formData := formData.(title := title);
    }

    method SetDescription(description: string)
      modifies this`formData
      ensures formData == old(formData).(description := description)
    {
      formData := formData.(description := description);
    }

    method SetPriority(priority: string)
      modifies this`formData
      ensures formData == old(formData).(priority := priority)
    {
      formData := formData.(priority := priority);
    }

    // ----- session gate

    /** The seeding effect, run when the logged-in flag has just become true:
        an empty list is filled with the three demo tasks. */
    method OnLogin()
      modifies this`tasks
      ensures tasks == if isLoggedIn && old(tasks) == [] then InitialTasks else old(tasks)
      ensures old(Valid()) ==> Valid()
    {
      if isLoggedIn && |tasks| == 0 {
        tasks := InitialTasks;
        InitialTasksUnique();
      }
    }

    /** Checks the login form against the credential table. On success the
        user is logged in, the form is cleared and, if the flag went from
        false to true, the seeding effect runs. On failure only the error
        message changes. */
    method Login()
      modifies this
      ensures Session.Authenticates(old(loginForm).username, old(loginForm).password) ==>
        isLoggedIn && currentUser == old(loginForm).username
        && loginForm == EmptyLoginForm && loginError == ""
        && tasks == (if !old(isLoggedIn) && old(tasks) == [] then InitialTasks else old(tasks))
      ensures !Session.Authenticates(old(loginForm).username, old(loginForm).password) ==>
        isLoggedIn == old(isLoggedIn) && currentUser == old(currentUser)
        && loginForm == old(loginForm) && loginError == Session.InvalidCredentials
        && tasks == old(tasks)
      ensures editingTask == old(editingTask) && showAddForm == old(showAddForm) && formData == old(formData)
      ensures old(Valid()) ==> Valid()
    {
      loginError := "";
      if Session.Authenticates(loginForm.username, loginForm.password) {
        var wasLoggedIn := isLoggedIn;
        isLoggedIn := true;
        currentUser := loginForm.username;
        loginForm := EmptyLoginForm;
        if !wasLoggedIn {
          OnLogin();
        }
      } else {
        loginError := Session.InvalidCredentials;
      }
    }

    /** A full reset of the session and the task store, whatever the state was. */
    method Logout()
      modifies this
      ensures !isLoggedIn && currentUser == "" && tasks == [] && editingTask == None
      ensures !showAddForm && formData == EmptyDraft && !FormVisible()
      ensures loginForm == old(loginForm) && loginError == old(loginError)
      ensures Valid()
    {
      isLoggedIn := false;
      currentUser := "";
      tasks := [];
      editingTask := None;
      showAddForm := false;
      formData := EmptyDraft;
    }

    // ----- task store

    /** The "Add New Task" button. */
    method OpenAddForm()
      modifies this`showAddForm
      ensures showAddForm && FormVisible()
    {
      showAddForm := true;
    }

    /** Appends a task built from the draft, with the given id (the source's
        clock reading) and not completed, then resets and closes the form.
        A blank title changes nothing. */
    method Add(freshId: int)
      modifies this
      ensures Text.IsBlank(old(formData).title) ==> unchanged(this)
      ensures !Text.IsBlank(old(formData).title) ==>
        tasks == old(tasks) + [Task(freshId, old(formData).title, old(formData).description, old(formData).priority, false)]
        && formData == EmptyDraft && !showAddForm
        && Ids(tasks) == old(Ids(tasks)) + {freshId}
      ensures isLoggedIn == old(isLoggedIn) && currentUser == old(currentUser) && editingTask == old(editingTask)
      ensures loginForm == old(loginForm) && loginError == old(loginError)
      ensures old(Valid()) && freshId !in old(Ids(tasks)) ==> Valid()
    {
      if TitleMissing(formData) {
        return;
      }
      var newTask := Task(freshId, formData.title, formData.description, formData.priority, false);
      if UniqueIds(tasks) && freshId !in Ids(tasks) {
        AppendKeepsUnique(tasks, newTask);
      }
      tasks := tasks + [newTask];
      formData := EmptyDraft;
      showAddForm := false;
    }

    /** Makes the given task the edit target and loads its fields into the
        draft. The add-form flag is left as it is. */
    method Edit(task: Task)
      modifies this`editingTask, this`formData
      ensures editingTask == Some(task.id)
      ensures formData == Draft(task.title, task.description, task.priority)
    {
      editingTask := Some(task.id);
      formData := Draft(task.title, task.description, task.priority);
    }

    /** Writes the draft over the task(s) carrying the edit target's id, then
        clears the edit target and resets the draft. The add-form flag is left
        as it is. A blank title changes nothing. */
    method Update()
      modifies this
      ensures Text.IsBlank(old(formData).title) ==> unchanged(this)
      ensures !Text.IsBlank(old(formData).title) ==>
        tasks == UpdateWhere(old(tasks), old(editingTask), old(formData))
        && editingTask == None && formData == EmptyDraft
      ensures isLoggedIn == old(isLoggedIn) && currentUser == old(currentUser) && showAddForm == old(showAddForm)
      ensures loginForm == old(loginForm) && loginError == old(loginError)
      ensures old(Valid()) ==> Valid()
      ensures Ids(tasks) == old(Ids(tasks))
    {
      if TitleMissing(formData) {
        return;
      }
      if UniqueIds(tasks) {
        UpdateKeepsUnique(tasks, editingTask, formData);
      }
      UpdateKeepsIds(tasks, editingTask, formData);
      tasks := UpdateWhere(tasks, editingTask, formData);
      editingTask := None;
      formData := EmptyDraft;
    }

    /** Removes every task with the given id, but only when the user confirmed. */
    method Delete(taskId: int, confirmed: bool)
      modifies this`tasks
      ensures tasks == if confirmed then RemoveId(old(tasks), taskId) else old(tasks)
      ensures old(Valid()) ==> Valid()
      ensures confirmed ==> Ids(tasks) == old(Ids(tasks)) - {taskId}
      ensures old(Valid()) && confirmed && taskId in old(Ids(tasks)) ==> |tasks| == |old(tasks)| - 1
    {
      if confirmed {
        if UniqueIds(tasks) {
          RemoveKeepsUnique(tasks, taskId);
          if taskId in Ids(tasks) {
            RemovePresentShrinksByOne(tasks, taskId);
          }
        }
        RemoveKeepsIds(tasks, taskId);
        tasks := RemoveId(tasks, taskId);
      }
    }

    /** Flips the completion flag of the task(s) with the given id. */
    method Toggle(taskId: int)
      modifies this`tasks
      ensures tasks == ToggleWhere(old(tasks), taskId)
      ensures old(Valid()) ==> Valid()
      ensures Ids(tasks) == old(Ids(tasks))
    {
      if UniqueIds(tasks) {
        ToggleKeepsUnique(tasks, taskId);
      }
      ToggleKeepsIds(tasks, taskId);
      tasks := ToggleWhere(tasks, taskId);
    }

    /** The save button: an update while an edit target is set, an add otherwise. */
    method Save(freshId: int)
      modifies this
      ensures Text.IsBlank(old(formData).title) ==> unchanged(this)
      ensures !Text.IsBlank(old(formData).title) && Truthy(old(editingTask)) ==>
        tasks == UpdateWhere(old(tasks), old(editingTask), old(formData))
        && editingTask == None && formData == EmptyDraft && showAddForm == old(showAddForm)
      ensures !Text.IsBlank(old(formData).title) && !Truthy(old(editingTask)) ==>
        tasks == old(tasks) + [Task(freshId, old(formData).title, old(formData).description, old(formData).priority, false)]
        && editingTask == old(editingTask) && formData == EmptyDraft && !showAddForm
      ensures isLoggedIn == old(isLoggedIn) && currentUser == old(currentUser)
      ensures loginForm == old(loginForm) && loginError == old(loginError)
      ensures old(Valid()) && (Truthy(old(editingTask)) || freshId !in old(Ids(tasks))) ==> Valid()
    {
      if Truthy(editingTask) {
        Update();
      } else {
        Add(freshId);
      }
    }

    /** The cancel button: closes the form, clears the edit target and resets
        the draft, leaving the tasks alone. */
    method Cancel()
      modifies this`showAddForm, this`editingTask, this`formData
      ensures !showAddForm && editingTask == None && formData == EmptyDraft && !FormVisible()
    {
      showAddForm := false;
      editingTask := None;
      formData := EmptyDraft;
    }
  }

  /** Logging out and logging back in with a valid pair always brings back
      exactly the three demo tasks, whatever was in the list before. */
  method ReloginReseeds(m: TaskManager, username: string, password: string)
    requires Session.Authenticates(username, password)
    modifies m
    ensures m.isLoggedIn && m.currentUser == username && m.tasks == InitialTasks
  {
    m.Logout();
    m.SetLoginUsername(username);
    m.SetLoginPassword(password);
    m.Login();
  }

  /** Log in as demo/demo, then add "Write report" with the default priority:
      four tasks, the demo ones followed by the new one, not completed. */
  method DemoScenario(freshId: int) returns (final: seq<Task>)
    ensures |final| == 4 && final[..3] == InitialTasks
    ensures final[3] == Task(freshId, "Write report", "", "medium", false)
  {
    var m := new TaskManager();
    m.SetLoginUsername("demo");
    m.SetLoginPassword("demo");
    m.Login();
    assert m.tasks == InitialTasks;
    m.OpenAddForm();
    m.SetTitle("Write report");
    assert !Text.IsBlank(m.formData.title) by {
      assert !Text.IsWhitespace(m.formData.title[0]);
    }
    m.Save(freshId);
    final := m.tasks;
  }
}
