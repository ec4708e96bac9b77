/** The rows of the two tables and the commands on them (repository/models/expressions.go). */
module Models {
  import opened Wrappers
  import opened Numbers

  datatype TaskStatus = TaskCreated | TaskPending | TaskInProgress | TaskCompleted | TaskFailed

  datatype ExpressionStatus = ExprPending | ExprInProgress | ExprCompleted | ExprFailed

  /** A row of tasks; None is NULL. */
  datatype TaskRow = TaskRow(
    expressionID: string,
    parentTask1ID: Option<string>,
    parentTask2ID: Option<string>,
    arg1: Option<Num>,
    arg2: Option<Num>,
    operation: string,
    status: TaskStatus,
    result: Option<Num>,
    createdAt: int)

  datatype ExpressionRow = ExpressionRow(
    expression: string,
    status: ExpressionStatus,
    result: Option<Num>,
    createdAt: int)

  datatype FinishTaskCmd = FinishTaskCmd(id: string, status: TaskStatus, result: Num)

  /** The contents of both tables, by primary key. */
  datatype Store = Store(tasks: map<string, TaskRow>, expressions: map<string, ExpressionRow>)
}
